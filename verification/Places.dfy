/** Where a connection loses its place in the byte stream, and that a client that sends
    well-formed requests never makes it. */
module Places {
  import opened Text
  import opened Headers
  import opened Replies
  import opened ClientOps
  import opened Session
  import opened Framing
  import opened Streams
  import opened Requests
  import opened Chunking

  function Delivered(e: Event): string {
    match e
    case HeadArrives(data) => data
    case BodyArrives(chunk) => chunk
    case _ => ""
  }

  // ---- one event ----

  // At most one request has been served between s and t, and nothing else has happened to
  // the history.
  predicate SamePlace(s: Session, t: Session) {
    && t.before == s.before && t.received == s.received
    && s.frames <= t.frames && |t.frames| <= |s.frames| + 1
  }

  lemma AnswerStays(s: Session, content: string, line: string, env: Env)
    ensures var t := Answer(Fill(s, content, line, env), env.now);
            t.before == s.before && t.received == s.received && t.frames == s.frames
  {
  }

  lemma CompleteStays(r: Session, env: Env)
    ensures SamePlace(r, Complete(r, env))
  {
    if r.rSize <= |r.buffer| {
      hide Answer, Fill, UriIs;
      var done := Served(r, r.buffer[..r.rSize]);
      var asked := done.(dispatched := done.dispatched + [r.buffer[..r.rSize]]);
      var (content, line) := Analysis(env, r.buffer[..r.rSize]);
      AnswerStays(done, env.pages.notFound, NOT_FOUND, env);
      AnswerStays(asked, content, line, env);
    }
  }

  lemma BodyStays(s: Session, ec: Ec, bytes: nat, env: Env)
    requires !ec.Aborted?
    ensures SamePlace(s, ReadBodyHandler(s, ec, bytes, env))
  {
    hide Complete, Length;
    if ec.Success? && bytes > 0 { CompleteStays(s.(rSize := s.rSize + bytes), env); }
  }

  lemma TakeBodyStays(s: Session, env: Env)
    ensures SamePlace(s, TakeBody(s, env))
  {
    hide ReadBodyHandler, Length, Stored;
    if |s.request| == Length(s.opts) { BodyStays(Moved(s), Success, |s.request|, env); }
  }

  lemma RouteStays(s: Session, env: Env)
    ensures SamePlace(s, Route(s, env))
  {
    hide TakeBody, Answer, Fill;
    AnswerStays(Served(s, ""), env.pages.badRequest, BAD_REQUEST, env);
    AnswerStays(Served(s, ""), env.pages.notFound, NOT_FOUND, env);
    TakeBodyStays(s, env);
  }

  /** What an event does to the history of the stream: one that loses the place sets all of
      it aside, and every other one adds its bytes and at most one request. */
  ghost predicate Moves(s: Session, e: Event, t: Session) {
    if Loses(s, e) then
      t.before == Before(AllReceived(s) + Delivered(e), AllFrames(s)) && t.received == "" && t.frames == []
    else SamePlace(s.(received := s.received + Delivered(e)), t)
  }

  lemma MovesHead(s: Session, data: string, env: Env)
    requires Possible(s, HeadArrives(data))
    ensures Moves(s, HeadArrives(data), After(s, HeadArrives(data), env))
  {
    hide Route, Answer, Fill, Fields, Parsed, NulFree, CStr;
    var text := s.request + data;
    var n := Find(text, BLANK_LINE) + 4;
    var c := s.(reading := [], received := s.received + data, request := text[n..], head := text[..n]);
    ParsesIff(text, text[..n]);
    if Fields(CStr(text)).None? {
      AnswerStays(Dropped(c), env.pages.error, SERVER_ERROR, env);
      assert s.before.bytes + (s.received + data) == AllReceived(s) + data;
    } else {
      RouteStays(c.(opts := Parsed(Fields(CStr(text)).value)), env);
    }
  }

  lemma MovesFailure(s: Session, ec: Ec, env: Env)
    requires Possible(s, ReadFails(ec))
    ensures Moves(s, ReadFails(ec), After(s, ReadFails(ec), env))
  {
    hide Answer, Fill;
    assert s.received + "" == s.received && AllReceived(s) + "" == AllReceived(s);
    AnswerStays(Dropped(s.(reading := [])), env.pages.error, SERVER_ERROR, env);
    AnswerStays(Unplaced(s.(reading := [])), env.pages.error, SERVER_ERROR, env);
  }

  /** The place is lost by exactly the events that Loses names: a head with a NUL before its
      blank line, and a cancelled read. */
  lemma PlaceStep(s: Session, e: Event, env: Env, replies: iset<string>)
    requires Possible(s, e) && Sound(s, replies)
    ensures Moves(s, e, After(s, e, env))
  {
    hide ReadHeadHandler, ReadBodyHandler;
    match e
    case HeadArrives(data) => MovesHead(s, data, env);
    case BodyArrives(chunk) =>
      var over := Overwrite(s.buffer, s.reading[0].at, chunk);
      BodyStays(s.(reading := [], buffer := over, received := s.received + chunk), Success, |chunk|, env);
    case ReadFails(ec) => MovesFailure(s, ec, env);
    case _ => assert s.received + "" == s.received;
  }

  // ---- traces ----

  ghost predicate LosesAt(r: Trace, j: nat)
    requires j < |r.events| && j < |r.states|
  {
    Loses(r.states[j], r.events[j])
  }

  lemma TraceMoves(r: Trace, k: nat)
    requires IsTrace(r) && k < |r.events|
    ensures |r.states| == |r.events| + 1 && r.states[k].halt.Going? && Moves(r.states[k], r.events[k], r.states[k + 1])
  {
    hide After, Fresh, PrintsReplies, Moves;
    assert Possible(r.states[k], r.events[k]);
    TraceSound(r, k);
    PlaceStep(r.states[k], r.events[k], r.envs[k], AllReplies());
  }

  /** What has been set aside at state k is what there was when the place was last lost. */
  ghost predicate SetAsideBy(r: Trace, j: nat, k: nat)
    requires j < k < |r.states| == |r.events| + 1
  {
    && LosesAt(r, j) && (forall i :: j < i < k ==> !LosesAt(r, i))
    && r.states[k].before == Before(AllReceived(r.states[j]) + Delivered(r.events[j]), AllFrames(r.states[j]))
  }

  ghost predicate NeverLost(r: Trace, k: nat)
    requires k < |r.states| == |r.events| + 1
  {
    forall j :: 0 <= j < k ==> !LosesAt(r, j)
  }

  /** Exactly: nothing has been set aside unless some event has lost the place, and then it
      is what had been received and served up to and with the last such event. */
  lemma {:induction false} PlaceLostExactly(r: Trace, k: nat)
    requires IsTrace(r) && k < |r.states|
    ensures |r.states| == |r.events| + 1
    ensures NeverLost(r, k) ==> r.states[k].before == NOTHING
    ensures !NeverLost(r, k) ==> exists j :: 0 <= j < k && SetAsideBy(r, j, k)
    decreases k
  {
    hide IsTrace, NeverLost, SetAsideBy, Loses, Moves;
    PlaceAtFirst(r);
    if k > 0 {
      TraceMoves(r, k - 1);
      PlaceLostExactly(r, k - 1);
      if LosesAt(r, k - 1) { LostLast(r, k); } else { LostBefore(r, k - 1, k); }
    }
  }

  lemma LostLast(r: Trace, k: nat)
    requires 0 < k < |r.states| == |r.events| + 1 && LosesAt(r, k - 1)
    requires Moves(r.states[k - 1], r.events[k - 1], r.states[k])
    ensures !NeverLost(r, k) && SetAsideBy(r, k - 1, k)
  {
    hide Loses;
  }

  lemma LostBefore(r: Trace, p: nat, k: nat)
    requires p + 1 == k < |r.states| == |r.events| + 1 && !LosesAt(r, p)
    requires Moves(r.states[p], r.events[p], r.states[k])
    requires NeverLost(r, p) ==> r.states[p].before == NOTHING
    requires !NeverLost(r, p) ==> exists j :: 0 <= j < p && SetAsideBy(r, j, p)
    ensures NeverLost(r, k) ==> r.states[k].before == NOTHING
    ensures !NeverLost(r, k) ==> exists j :: 0 <= j < k && SetAsideBy(r, j, k)
  {
    hide Loses;
    if !NeverLost(r, k) {
      var j :| 0 <= j < p && SetAsideBy(r, j, p);
      assert SetAsideBy(r, j, k);
    }
  }

  lemma MovesGrow(s: Session, e: Event, t: Session)
    requires Moves(s, e, t)
    ensures AllReceived(t) == AllReceived(s) + Delivered(e)
    ensures AllReceived(s) <= AllReceived(t) && AllFrames(s) <= AllFrames(t)
    ensures |AllFrames(t)| <= |AllFrames(s)| + 1
  {
    hide Loses;
    assert s.before.bytes + (s.received + Delivered(e)) == AllReceived(s) + Delivered(e);
    assert AllFrames(s) + [] == AllFrames(s) && AllReceived(s) + Delivered(e) + "" == AllReceived(s) + Delivered(e);
  }

  /** No byte and no request is ever forgotten: whatever happens, what has been received and
      the requests served only grow. */
  lemma {:induction false} HistoryGrows(r: Trace, j: nat, k: nat)
    requires IsTrace(r) && j <= k < |r.states|
    ensures AllReceived(r.states[j]) <= AllReceived(r.states[k]) && AllFrames(r.states[j]) <= AllFrames(r.states[k])
    decreases k
  {
    hide IsTrace, Moves, AllReceived, AllFrames;
    if j < k {
      var s, t := r.states[k - 1], r.states[k];
      TraceSizes(r);
      TraceMoves(r, k - 1);
      HistoryGrows(r, j, k - 1);
      MovesGrow(s, r.events[k - 1], t);
      PrefixOfPrefix(AllReceived(r.states[j]), AllReceived(s), AllReceived(t));
      PrefixOfPrefix(AllFrames(r.states[j]), AllFrames(s), AllFrames(t));
    }
  }

  lemma TraceSizes(r: Trace)
    requires IsTrace(r)
    ensures |r.states| == |r.events| + 1 == |r.envs| + 1
  {
  }

  lemma PrefixOfPrefix<T>(a: seq<T>, b: seq<T>, c: seq<T>)
    requires a <= b <= c
    ensures a <= c
  {
  }

  // ---- a client that sends requests ----

  // A stream of requests, with some of them taken off its front.
  lemma {:induction false} TakenOff(g: Grammar, fs: seq<Frame>, gs: seq<Frame>, x: string) returns (rest: seq<Frame>)
    requires PrefixCode(g) && AllOk(g, fs) && AllOk(g, gs) && Flatten(gs) + x <= Flatten(fs)
    requires forall f :: g.ok(f) ==> f.head != ""
    ensures AllOk(g, rest) && x <= Flatten(rest)
    decreases |gs|
  {
    if gs == [] {
      rest := fs;
      assert Flatten(gs) + x == x;
    } else {
      var y := Flatten(fs)[|Flatten(gs) + x|..];
      assert Flatten(fs) == Flatten(gs) + x + y;
      CatAssoc(gs[0], Flatten(gs[1..]), x);
      CatAssoc(gs[0], Flatten(gs[1..]) + x, y);
      assert Flatten(fs) == Cat(gs[0], Flatten(gs[1..]) + x + y);
      assert fs != [] && Cat(fs[0], Flatten(fs[1..])) == Cat(gs[0], Flatten(gs[1..]) + x + y);
      rest := TakenOff(g, fs[1..], gs[1..], x);
    }
  }

  // The first head of a stream of requests has no NUL.
  lemma FirstHeadIsGood(fs: seq<Frame>, text: string)
    requires AllOk(Http(), fs) && text <= Flatten(fs) && Find(text, BLANK_LINE) >= 0
    ensures NulFree(text[..Find(text, BLANK_LINE) + 4])
  {
    assert fs != [] && IsRequest(fs[0]);
    hide Find, Http;
    FirstHeadIs(fs[0].head, fs[0].body + Flatten(fs[1..]), text);
  }

  lemma FirstHeadIs(h: string, rest: string, text: string)
    requires GoodHead(h) && text <= h + rest && Find(text, BLANK_LINE) >= 0
    ensures text[..Find(text, BLANK_LINE) + 4] == h
  {
    hide Find, NulFree;
    var all, n := h + rest, Find(text, BLANK_LINE);
    var x := all[|text|..];
    Rejoined(all, text, x);
    FindExtends(h, rest, BLANK_LINE);
    FindExtends(text, x, BLANK_LINE);
    AtExtends(text, x, BLANK_LINE, n);
    SameStart(all, h, text, n + 4);
  }

  lemma SameStart(all: string, h: string, text: string, n: nat)
    requires h <= all && text <= all && |h| == n <= |text|
    ensures text[..n] == h
  {
  }

  // No read of the connection has been cancelled.
  ghost predicate NoneCancelled(r: Trace, k: nat)
    requires k <= |r.events|
  {
    forall j :: 0 <= j < k && r.events[j].ReadFails? ==> !r.events[j].ec.Aborted?
  }

  lemma GoodHeadComes(s: Session, data: string, text: string, fs: seq<Frame>)
    requires s.received == Flatten(s.frames) + s.request && AllOk(Http(), s.frames) && text == s.request + data
    requires AllOk(Http(), fs) && s.before == NOTHING && AllReceived(s) + data <= Flatten(fs)
    requires Find(text, BLANK_LINE) >= 0
    ensures NulFree(text[..Find(text, BLANK_LINE) + 4])
  {
    hide Http, Flatten, Find, NulFree, AllReceived;
    NoneBefore(s, data, text);
    HttpIsPrefixCode();
    HeadsNotEmpty();
    var rest := TakenOff(Http(), fs, s.frames, text);
    FirstHeadIsGood(rest, text);
  }

  lemma GoodEvent(s: Session, e: Event, fs: seq<Frame>)
    requires Framed(Http(), s) && Possible(s, e) && (e.ReadFails? ==> !e.ec.Aborted?)
    requires AllOk(Http(), fs) && s.before == NOTHING && AllReceived(s) + Delivered(e) <= Flatten(fs)
    ensures !Loses(s, e)
  {
    hide Framed, Http, Flatten, Find, NulFree, AllReceived;
    if e.HeadArrives? {
      StreamOk(Http(), s);
      GoodHeadComes(s, e.data, s.request + e.data, fs);
    }
  }

  lemma NoneBefore(s: Session, data: string, text: string)
    requires s.before == NOTHING && s.received == Flatten(s.frames) + s.request && text == s.request + data
    ensures AllReceived(s) + data == Flatten(s.frames) + text
  {
    hide Flatten;
    assert "" + s.received == s.received;
  }

  lemma HeadsNotEmpty()
    ensures forall f :: Http().ok(f) ==> f.head != ""
  {
  }

  /** What a connection has received is a part of the well-formed requests fs. */
  ghost predicate Sends(fs: seq<Frame>, s: Session) {
    AllOk(Http(), fs) && AllReceived(s) <= Flatten(fs)
  }

  lemma ClientStep(r: Trace, k: nat, s: Session, e: Event, fs: seq<Frame>)
    requires IsTrace(r) && k < |r.events| && s == r.states[k] && e == r.events[k] && (e.ReadFails? ==> !e.ec.Aborted?)
    requires s.before == NOTHING && Sends(fs, r.states[k + 1])
    ensures !Loses(s, e) && r.states[k + 1].before == NOTHING
  {
    assert Possible(s, e);
    hide IsTrace, Framed, Possible, Loses, Http, Flatten, AllReceived, AllFrames;
    TraceMoves(r, k);
    MovesGrow(s, e, r.states[k + 1]);
    TraceSound(r, k);
    GoodEvent(s, e, fs);
  }

  lemma SendsBefore(r: Trace, k: nat, fs: seq<Frame>)
    requires IsTrace(r) && 0 < k < |r.states| && Sends(fs, r.states[k])
    ensures Sends(fs, r.states[k - 1])
  {
    hide IsTrace, Http, Flatten, AllReceived, AllFrames;
    HistoryGrows(r, k - 1, k);
    PrefixOfPrefix(AllReceived(r.states[k - 1]), AllReceived(r.states[k]), Flatten(fs));
  }

  lemma PlaceAtFirst(r: Trace)
    requires IsTrace(r)
    ensures |r.states| == |r.events| + 1 && NeverLost(r, 0) && r.states[0].before == NOTHING
  {
  }

  /** A client that sends well-formed requests keeps its place: as long as what has been
      received is a part of them, and no read is cancelled, nothing is thrown away. */
  lemma {:induction false} ClientKeepsPlace(r: Trace, k: nat, fs: seq<Frame>)
    requires IsTrace(r) && k < |r.states| && NoneCancelled(r, k) && Sends(fs, r.states[k])
    ensures |r.states| == |r.events| + 1 && NeverLost(r, k) && r.states[k].before == NOTHING
    decreases k
  {
    hide IsTrace, Loses, NeverLost, Sends;
    PlaceAtFirst(r);
    if k > 0 {
      SendsBefore(r, k, fs);
      ClientKeepsPlace(r, k - 1, fs);
      ClientStep(r, k - 1, r.states[k - 1], r.events[k - 1], fs);
      NeverLostNext(r, k);
    }
  }

  lemma NeverLostNext(r: Trace, k: nat)
    requires 0 < k < |r.states| == |r.events| + 1 && NeverLost(r, k - 1) && !Loses(r.states[k - 1], r.events[k - 1])
    ensures NeverLost(r, k)
  {
    hide Loses;
  }

  /** Dispatch i gets frame i: a client that sends the requests fs, in any pieces, has
      exactly these served and exactly their bodies analysed, in order, once all bytes have
      arrived and the connection waits for the next head, if no read has been cancelled. */
  lemma KeepAliveRun(r: Trace, k: nat, fs: seq<Frame>)
    requires IsTrace(r) && k < |r.states| && AllOk(Http(), fs) && NoneCancelled(r, k)
    requires var s := r.states[k];
             s.halt.Going? && s.reading == [HeadRead] && s.request == "" && AllReceived(s) == Flatten(fs)
    ensures AllFrames(r.states[k]) == fs && r.states[k].dispatched == Bodies(Http(), fs)
  {
    ClientKeepsPlace(r, k, fs);
    DispatchesTheStream(r, k);
    HttpIsPrefixCode();
    hide IsTrace;
    var gs := r.states[k].frames;
    assert AllFrames(r.states[k]) == gs && AllReceived(r.states[k]) == r.states[k].received;
    assert Flatten(gs) + "" == Flatten(gs);
    SameStream(Http(), fs, gs);
  }

  lemma {:induction false} SameStream(g: Grammar, fs: seq<Frame>, gs: seq<Frame>)
    requires PrefixCode(g) && AllOk(g, fs) && AllOk(g, gs) && Flatten(fs) == Flatten(gs)
    requires forall f :: g.ok(f) ==> f.head != ""
    ensures fs == gs
  {
    if fs != [] && gs != [] {
      assert Cat(fs[0], Flatten(fs[1..])) == Cat(gs[0], Flatten(gs[1..]));
      SameStream(g, fs[1..], gs[1..]);
      assert fs == [fs[0]] + fs[1..] && gs == [gs[0]] + gs[1..];
    }
  }
}
