/** A byte stream as a sequence of requests, for any grammar of requests that is a prefix
    code, and the invariant that ties a connection to its stream. */
module Streams {
  import opened Text
  import opened Headers
  import opened Replies
  import opened Session
  import opened Framing

  /** Which frames are requests, which of them are posted, and which of these have a body
      to be analysed. */
  datatype Grammar = Grammar(ok: Frame -> bool, posted: Frame -> bool, analysed: Frame -> bool)

  function Cat(f: Frame, rest: string): string {
    f.head + (f.body + rest)
  }

  function Flatten(fs: seq<Frame>): string {
    if fs == [] then "" else Cat(fs[0], Flatten(fs[1..]))
  }

  ghost predicate AllOk(g: Grammar, fs: seq<Frame>) {
    forall i :: 0 <= i < |fs| ==> g.ok(fs[i])
  }

  /** The bodies that analyse_handler has to be given. */
  function Bodies(g: Grammar, fs: seq<Frame>): seq<string> {
    if fs == [] then []
    else (if g.analysed(fs[0]) then [fs[0].body] else []) + Bodies(g, fs[1..])
  }

  lemma {:induction false} FlattenAppend(g: Grammar, fs: seq<Frame>, f: Frame)
    ensures Flatten(fs + [f]) == Flatten(fs) + (f.head + f.body)
    ensures Bodies(g, fs + [f]) == Bodies(g, fs) + if g.analysed(f) then [f.body] else []
  {
    if fs == [] {
      assert (fs + [f])[1..] == [];
      assert f.body + "" == f.body;
    } else {
      assert (fs + [f])[1..] == fs[1..] + [f];
      FlattenAppend(g, fs[1..], f);
      CatAssoc(fs[0], Flatten(fs[1..]), f.head + f.body);
    }
  }

  lemma CatAssoc(f: Frame, x: string, y: string)
    ensures Cat(f, x + y) == Cat(f, x) + y
  {
  }

  ghost predicate PrefixCode(g: Grammar) {
    forall e, f, x, y {:trigger Cat(e, x), Cat(f, y)} :: g.ok(e) && g.ok(f) && Cat(e, x) == Cat(f, y) ==> e == f && x == y
  }

  /** A stream has one reading only: whatever follows, two lists of requests that begin
      the same stream agree as far as both go. */
  lemma {:induction false} FramingUnique(g: Grammar, fs: seq<Frame>, gs: seq<Frame>, p: string, q: string, i: nat)
    requires PrefixCode(g) && AllOk(g, fs) && AllOk(g, gs) && Flatten(fs) + p == Flatten(gs) + q
    requires i < |fs| && i < |gs|
    ensures fs[i] == gs[i]
  {
    CatAssoc(fs[0], Flatten(fs[1..]), p);
    CatAssoc(gs[0], Flatten(gs[1..]), q);
    assert Cat(fs[0], Flatten(fs[1..]) + p) == Cat(gs[0], Flatten(gs[1..]) + q);
    if i > 0 { FramingUnique(g, fs[1..], gs[1..], p, q, i - 1); }
  }

  // ---- the invariant ----

  /** Where a connection stands in its stream. */
  datatype Place = AtHead | AtBody(at: nat) | NotReading

  function PlaceOf(s: Session): Place {
    if |s.reading| != 1 then NotReading
    else if s.reading[0].HeadRead? then AtHead
    else AtBody(s.reading[0].at)
  }

  // The requests served so far, and the bodies passed on.
  ghost predicate History(g: Grammar, s: Session) {
    AllOk(g, AllFrames(s)) && s.dispatched == Bodies(g, AllFrames(s))
  }

  /** The head asks for any body of the length its options announce. */
  ghost predicate HeadFits(g: Grammar, head: string, opts: Options) {
    forall body {:trigger Frame(head, body)} :: |body| == Length(opts) ==>
      g.ok(Frame(head, body)) && g.posted(Frame(head, body)) && (g.analysed(Frame(head, body)) <==> UriIs(opts, ANALYSE))
  }

  /** What a consumed head means: a request by itself, or one together with any body of
      the length it announces. */
  ghost predicate HeadMeans(g: Grammar, head: string, opts: Options) {
    if TakesBody(opts) then Length(opts) >= 0 ==> HeadFits(g, head, opts)
    else g.ok(Frame(head, "")) && !g.analysed(Frame(head, "")) && (g.posted(Frame(head, "")) <==> IsPost(opts))
  }

  /** The first n bytes of a text are what the parser makes of its head. */
  ghost predicate MeansHead(g: Grammar, text: string, n: nat) {
    Find(text, BLANK_LINE) >= 0 && n == Find(text, BLANK_LINE) + 4 && Fields(CStr(text)).Some? ==>
      HeadMeans(g, text[..n], Parsed(Fields(CStr(text)).value))
  }

  /** The grammar agrees with the parser, however much was read along with a head. */
  ghost predicate Agrees(g: Grammar) {
    forall text, n :: MeansHead(g, text, n)
  }

  /** The requests served make up the stream received so far, but for the part of one
      request that is still being read; the stream begins where the place in it was last
      lost. */
  ghost predicate Framed(g: Grammar, s: Session) {
    match PlaceOf(s)
    case AtHead => History(g, s) && s.received == Flatten(s.frames) + s.request
    case AtBody(at) =>
      && History(g, s) && HeadFits(g, s.head, s.opts) && at <= |s.buffer|
      && s.received == Flatten(s.frames) + (s.head + s.buffer[..at])
    case NotReading => History(g, s) && Flatten(s.frames) <= s.received
  }

  // A request has just been served completely.
  lemma ServedKeeps(g: Grammar, s: Session, f: Frame)
    requires History(g, s) && g.ok(f)
    ensures var all := s.before.frames + (s.frames + [f]);
            && AllOk(g, all) && Flatten(s.frames + [f]) == Flatten(s.frames) + (f.head + f.body)
            && s.dispatched + (if g.analysed(f) then [f.body] else []) == Bodies(g, all)
  {
    FlattenAppend(g, s.frames, f);
    FlattenAppend(g, AllFrames(s), f);
    assert s.before.frames + (s.frames + [f]) == AllFrames(s) + [f];
  }

  // A place that is lost is a place at the start of a stream.
  lemma UnplacedKeeps(g: Grammar, s: Session)
    requires History(g, s)
    ensures History(g, Unplaced(s)) && Unplaced(s).received == Flatten(Unplaced(s).frames) + ""
  {
    assert AllFrames(s) + [] == AllFrames(s);
  }

  lemma FramedAnswer(g: Grammar, s: Session, content: string, line: string, env: Env, replies: iset<string>)
    requires Prints(env, replies) && s.halt.Going? && s.reading == []
    requires History(g, s) && s.received == Flatten(s.frames) + s.request
    ensures Framed(g, Answer(Fill(s, content, line, env), env.now))
  {
    AnswerFilled(s, content, line, env, replies);
  }

  // A body handler that starts from here has got the stream up to buffer[..filled].
  ghost predicate InBody(g: Grammar, s: Session, filled: nat) {
    && s.reading == [] && s.request == "" && filled <= |s.buffer|
    && History(g, s) && HeadFits(g, s.head, s.opts)
    && s.received == Flatten(s.frames) + (s.head + s.buffer[..filled])
  }

  // The body is complete: this request is the next of the stream.
  lemma FramedDone(g: Grammar, s: Session)
    requires InBody(g, s, s.rSize) && s.rSize == Length(s.opts)
    ensures var done := Served(s, s.buffer[..s.rSize]);
            var passed := if UriIs(s.opts, ANALYSE) then s.dispatched + [s.buffer[..s.rSize]] else s.dispatched;
            && History(g, done.(dispatched := passed))
            && done.received == Flatten(done.frames) + done.request
  {
    ServedKeeps(g, s, Frame(s.head, s.buffer[..s.rSize]));
  }

  lemma FramedComplete(g: Grammar, r: Session, env: Env, replies: iset<string>)
    requires Prints(env, replies) && r.halt.Going? && InBody(g, r, r.rSize) && r.rSize == Length(r.opts)
    ensures Framed(g, Complete(r, env))
  {
    FramedDone(g, r);
    var done := Served(r, r.buffer[..r.rSize]);
    if !UriIs(r.opts, ANALYSE) {
      FramedAnswer(g, done, env.pages.notFound, NOT_FOUND, env, replies);
    } else {
      var asked := done.(dispatched := done.dispatched + [r.buffer[..r.rSize]]);
      var (content, line) := Analysis(env, r.buffer[..r.rSize]);
      FramedAnswer(g, asked, content, line, env, replies);
    }
  }

  lemma FramedBody(g: Grammar, s: Session, bytes: nat, filled: nat, env: Env, replies: iset<string>)
    requires Prints(env, replies) && s.halt.Going? && InBody(g, s, filled) && bytes > 0 && filled <= Length(s.opts)
    requires s.rSize + bytes == filled || (s.rSize + bytes < Length(s.opts) && s.stats.Error?)
    ensures Framed(g, ReadBodyHandler(s, Success, bytes, env))
  {
    hide DoReadBody, Complete, Framed, Prints;
    var r := s.(rSize := s.rSize + bytes);
    if r.rSize < Length(r.opts) { NeedsMore(g, s, bytes, filled, env); } else { FramedComplete(g, r, env, replies); }
  }

  lemma NeedsMore(g: Grammar, s: Session, bytes: nat, filled: nat, env: Env)
    requires InBody(g, s, filled) && s.rSize + bytes < Length(s.opts)
    requires s.rSize + bytes == filled || s.stats.Error?
    ensures Framed(g, DoReadBody(s.(rSize := s.rSize + bytes), env.now))
  {
    assert Flatten(s.frames) <= s.received;
  }

  /** The bytes read along with the head are the first of the body. */
  lemma FramedTakeBody(g: Grammar, s: Session, env: Env, replies: iset<string>)
    requires Prints(env, replies) && s.halt.Going? && s.reading == []
    requires History(g, s) && HeadFits(g, s.head, s.opts)
    requires s.received == Flatten(s.frames) + (s.head + s.request) && |s.request| <= Length(s.opts)
    ensures Framed(g, TakeBody(s, env))
  {
    var len, extra := Length(s.opts), s.request;
    assert InBody(g, Moved(s), |extra|);
    if |extra| < len {
      NeedsMore(g, Moved(s), |extra|, |extra|, env);
    } else if len > 0 {
      FramedBody(g, Moved(s), |extra|, |extra|, env, replies);
    } else {
      assert Flatten(s.frames) <= s.received;
    }
  }
}
