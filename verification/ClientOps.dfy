/** sync_read_from: the reader of the `length:payload` answers of the backend, over a
    socket that delivers its bytes in arbitrary segments. */
module ClientOps {
  import opened Text

  /** What the peer does next: bytes arrive, or the read fails. */
  datatype Segment = Data(bytes: string) | Fault

  /** The outcome of one read_some, and what the peer still has to do. */
  datatype Read = Read(bytes: string, ec: bool, rest: seq<Segment>)

  /** read_some into a buffer of n bytes. A closed connection is an error. */
  function ReadSome(script: seq<Segment>, n: nat): (r: Read)
    ensures |r.bytes| <= n
  {
    if script == [] then Read("", true, [])
    else match script[0]
      case Fault => Read("", true, script[1..])
      case Data(b) =>
        if |b| <= n then Read(b, false, script[1..]) else Read(b[..n], false, [Data(b[n..])] + script[1..])
  }

  /** All the bytes the peer sends. */
  function Stream(script: seq<Segment>): string
    decreases |script|
  {
    if script == [] then ""
    else (match script[0] case Fault => "" case Data(b) => b) + Stream(script[1..])
  }

  // A read here fails or returns nothing.
  predicate Stops(seg: Segment) { seg.Fault? || seg.bytes == "" }

  /** The first failed or empty read, or the end of what the peer does. */
  function FirstStop(script: seq<Segment>): (k: nat)
    ensures k <= |script| && (k < |script| ==> Stops(script[k])) && forall i :: 0 <= i < k ==> !Stops(script[i])
  {
    if script == [] || Stops(script[0]) then 0 else 1 + FirstStop(script[1..])
  }

  /** The bytes that arrive before that read ... */
  function Sent(script: seq<Segment>): string { Stream(script[..FirstStop(script)]) }

  /** ... and what the peer still has to do after it. */
  function AfterStop(script: seq<Segment>): seq<Segment> {
    if FirstStop(script) == |script| then [] else script[FirstStop(script) + 1..]
  }

  /** Before that read, some segment ends n bytes from here. */
  predicate Falls(script: seq<Segment>, n: int)
    decreases |script|
  {
    n == 0 || (script != [] && !Stops(script[0]) && Falls(script[1..], n - |script[0].bytes|))
  }

  lemma Unfolded(script: seq<Segment>)
    ensures script == [] || Stops(script[0]) ==> Sent(script) == "" && AfterStop(script) == script[if script == [] then 0 else 1..]
    ensures script != [] && !Stops(script[0]) ==>
              Sent(script) == script[0].bytes + Sent(script[1..]) && AfterStop(script) == AfterStop(script[1..])
  {
    if script != [] && !Stops(script[0]) {
      var k := FirstStop(script);
      assert script[..k][0] == script[0] && script[..k][1..] == script[1..][..k - 1];
    }
  }

  lemma {:induction false} FallsWithin(script: seq<Segment>, n: int)
    requires Falls(script, n)
    ensures 0 <= n <= |Sent(script)|
    decreases |script|
  {
    if n != 0 {
      FallsWithin(script[1..], n - |script[0].bytes|);
      Unfolded(script);
    }
  }

  lemma {:induction false} SentFirst(script: seq<Segment>)
    ensures Sent(script) <= Stream(script)
    decreases |script|
  {
    Unfolded(script);
    if script != [] && !Stops(script[0]) { SentFirst(script[1..]); }
  }

  // How one read moves on in what the peer does.
  lemma ReadSomeStream(script: seq<Segment>, n: nat)
    ensures var r := ReadSome(script, n); Stream(script) == r.bytes + Stream(r.rest) && (r.ec ==> r.bytes == "")
  {
    var r := ReadSome(script, n);
    if script != [] && script[0].Data? && |script[0].bytes| > n { SplitSegment(script, n); }
  }

  lemma SplitSegment(script: seq<Segment>, n: nat)
    requires script != [] && script[0].Data? && |script[0].bytes| > n
    ensures var r := ReadSome(script, n);
            && r.rest[0] == Data(script[0].bytes[n..]) && r.rest[1..] == script[1..]
            && script[0].bytes == r.bytes + r.rest[0].bytes
  {
  }

  lemma ReadSomeSent(script: seq<Segment>, n: nat)
    requires n > 0
    ensures var r := ReadSome(script, n);
            if script == [] || Stops(script[0]) then r.bytes == "" && Sent(script) == "" && r.rest == AfterStop(script)
            else r.bytes != "" && !r.ec && Sent(script) == r.bytes + Sent(r.rest) && AfterStop(script) == AfterStop(r.rest)
  {
    var r := ReadSome(script, n);
    Unfolded(script);
    if script != [] && !Stops(script[0]) && |script[0].bytes| > n {
      SplitSegment(script, n);
      Unfolded(r.rest);
      assert script[0].bytes + Sent(script[1..]) == r.bytes + (r.rest[0].bytes + Sent(script[1..]));
    }
  }

  lemma ReadSomeFalls(script: seq<Segment>, n: nat, m: int)
    requires n > 0 && m > 0 && m != n
    ensures var r := ReadSome(script, n); r.bytes != "" && !r.ec ==> (Falls(script, m) <==> Falls(r.rest, m - |r.bytes|))
  {
    var r := ReadSome(script, n);
    if script != [] && !Stops(script[0]) && |script[0].bytes| > n {
      SplitSegment(script, n);
      assert m - |r.bytes| - |r.rest[0].bytes| == m - |script[0].bytes|;
    }
  }


  function Zeros(n: nat): (z: string)
    ensures |z| == n && forall i :: 0 <= i < n ==> z[i] == '\0'
  {
    seq(n, i => '\0')
  }

  // ---- the reader as a function of the script and the buffer ----

  /** The value returned, the buffer left behind, and the rest of the script. */
  datatype Outcome = Outcome(count: nat, buff: string, rest: seq<Segment>)

  // std::vector::resize
  function Resized(buff: string, size: nat): (r: string)
    ensures |r| == size
  {
    if size <= |buff| then buff[..size] else buff + Zeros(size - |buff|)
  }

  function Overwrite(buff: string, at: nat, bytes: string): (r: string)
    requires at + |bytes| <= |buff|
    ensures |r| == |buff| && r[..at + |bytes|] == buff[..at] + bytes
  {
    buff[..at] + bytes + buff[at + |bytes|..]
  }

  /** The loop: every read goes behind what is there, inside the buffer. */
  function ReadMore(script: seq<Segment>, buff: string, actual: nat, goal: nat): Outcome
    requires actual <= |buff| && goal <= |buff|
    decreases goal - actual
  {
    if actual >= goal then Outcome(actual, buff, script) else
    var r := ReadSome(script, |buff| - actual);
    if r.ec || r.bytes == "" then Outcome(actual, buff, r.rest)
    else ReadMore(r.rest, Overwrite(buff, actual, r.bytes), actual + |r.bytes|, goal)
  }

  /** The first 20 bytes of the buffer as a C string. */
  function Prefix(buff: string): string
    requires |buff| >= 20
  {
    CStr(buff[..20])
  }

  /** The number in front of the colon, if there is a colon. */
  function Announced(buff: string): int
    requires |buff| >= 20
  {
    var pos := FindChar(Prefix(buff), ':');
    if pos < 0 then 0 else Atoi(Prefix(buff)[..pos])
  }

  function AfterFirst(script: seq<Segment>, buff: string): string
  {
    var r := ReadSome(script, |buff|);
    Overwrite(buff, 0, r.bytes)
  }

  predicate Zeroed(buff: string) {
    |buff| >= 20 && forall i :: 0 <= i < |buff| ==> buff[i] == '\0'
  }

  // A colon in a zeroed buffer has been received.
  lemma ColonReceived(script: seq<Segment>, buff: string)
    requires Zeroed(buff)
    ensures FindChar(Prefix(AfterFirst(script, buff)), ':') < |ReadSome(script, |buff|).bytes|
          || FindChar(Prefix(AfterFirst(script, buff)), ':') < 0
  {
    var r, b := ReadSome(script, |buff|), AfterFirst(script, buff);
    assert forall i :: |r.bytes| <= i < |b| ==> b[i] == buff[i];
  }

  /** The buffer without the number and the colon, made large enough. */
  function Shifted(b: string, pos: nat, goal: nat): (r: string)
    requires pos < |b|
    ensures goal <= |r| && b[pos + 1..] <= r
  {
    var s := b[pos + 1..];
    if goal > |s| then Resized(s, goal + 256) else s
  }

  /** A size_t wraps around: the number is negative, or its colon was in the buffer before
      anything was received. */
  predicate Wraps(script: seq<Segment>, buff: string)
    requires |buff| >= 20
  {
    var r, b := ReadSome(script, |buff|), AfterFirst(script, buff);
    !r.ec && (Announced(b) < 0 || (Announced(b) > 0 && FindChar(Prefix(b), ':') >= |r.bytes|))
  }

  /** Into a zeroed buffer, as the caller passes it, exactly a negative number does that. */
  lemma WrapsIff(script: seq<Segment>, buff: string)
    requires Zeroed(buff)
    ensures Wraps(script, buff) <==> !ReadSome(script, |buff|).ec && Announced(AfterFirst(script, buff)) < 0
  {
    ColonReceived(script, buff);
  }

  /** What sync_read_from returns and leaves behind; unless a size wraps around, when the
      model stops. */
  function ReadFrom(script: seq<Segment>, buff: string): Outcome
    requires |buff| >= 20
  {
    var r := ReadSome(script, |buff|);
    if r.ec then Outcome(0, buff, r.rest) else
    var b := AfterFirst(script, buff);
    var pos, goal := FindChar(Prefix(b), ':'), Announced(b);
    if pos < 0 || goal == 0 || Wraps(script, buff) then Outcome(0, b, r.rest) else
    ReadMore(r.rest, Shifted(b, pos, goal), |r.bytes| - pos - 1, goal)
  }

  // ---- what it returns ----

  /** The loop conserves the payload: what the buffer's filled part and the peer's stream
      make up together never changes. */
  lemma {:induction false} MoreConserves(script: seq<Segment>, buff: string, actual: nat, goal: nat)
    requires actual <= |buff| && goal <= |buff|
    ensures var o := ReadMore(script, buff, actual, goal);
            && actual <= o.count <= |o.buff|
            && buff[..actual] + Stream(script) == o.buff[..o.count] + Stream(o.rest)
    decreases goal - actual
  {
    hide ReadSome, Overwrite, Stream;
    if actual < goal {
      var r := ReadSome(script, |buff| - actual);
      ReadSomeStream(script, |buff| - actual);
      if r.ec || r.bytes == "" {
        assert r.bytes + Stream(r.rest) == Stream(r.rest);
      } else {
        var over := Overwrite(buff, actual, r.bytes);
        MoreConserves(r.rest, over, actual + |r.bytes|, goal);
        OverwriteJoins(buff, actual, r.bytes, Stream(r.rest));
      }
    }
  }

  /** How far it gets, whatever the peer does: it reads nothing past the first failed or
      empty read, and if it stops short of its goal it has got everything before that
      read, and that read is the last it made. */
  lemma {:induction false} MoreCounts(script: seq<Segment>, buff: string, actual: nat, goal: nat)
    requires actual <= |buff| && goal <= |buff|
    ensures var o := ReadMore(script, buff, actual, goal);
            && actual <= o.count <= actual + |Sent(script)|
            && (o.count < goal ==> o.count == actual + |Sent(script)| && o.rest == AfterStop(script))
    decreases goal - actual
  {
    hide ReadSome, Overwrite, Sent, AfterStop;
    if actual < goal {
      var r := ReadSome(script, |buff| - actual);
      ReadSomeSent(script, |buff| - actual);
      ReadSomeStream(script, |buff| - actual);
      if !r.ec && r.bytes != "" {
        MoreCounts(r.rest, Overwrite(buff, actual, r.bytes), actual + |r.bytes|, goal);
      }
    }
  }

  /** It reads exactly as much as it wants if and only if so much arrives before the first
      failed or empty read, and a segment ends there or the buffer does. */
  lemma {:induction false} MoreExact(script: seq<Segment>, buff: string, actual: nat, goal: nat)
    requires actual <= |buff| && goal <= |buff|
    ensures ReadMore(script, buff, actual, goal).count == goal
       <==> goal <= actual + |Sent(script)| && (Falls(script, goal - actual) || (|buff| == goal))
    decreases goal - actual
  {
    hide ReadSome, Overwrite, Sent, AfterStop;
    if actual < goal {
      var n := |buff| - actual;
      var r := ReadSome(script, n);
      ReadSomeSent(script, n);
      ReadSomeStream(script, n);
      if goal < |buff| { ReadSomeFalls(script, n, goal - actual); }
      if !r.ec && r.bytes != "" {
        MoreExact(r.rest, Overwrite(buff, actual, r.bytes), actual + |r.bytes|, goal);
      }
    } else if Falls(script, goal - actual) {
      FallsWithin(script, goal - actual);
    }
  }

  lemma OverwriteJoins(buff: string, at: nat, bytes: string, rest: string)
    requires at + |bytes| <= |buff|
    ensures buff[..at] + (bytes + rest) == Overwrite(buff, at, bytes)[..at + |bytes|] + rest
  {
  }

  /** The bytes in front of the colon. */
  function Lead(script: seq<Segment>, buff: string): string
    requires Zeroed(buff)
  {
    var p := Prefix(AfterFirst(script, buff));
    if FindChar(p, ':') < 0 then "" else p[..FindChar(p, ':')]
  }

  lemma CutAtColon(b: string, n: nat, p: string, pos: nat)
    requires p <= b && pos < |p| && pos < n <= |b| && p[pos] == ':'
    ensures b[..n] == p[..pos] + ":" + b[pos + 1..n]
  {
  }

  // The first read, taken apart at the colon.
  lemma FirstRead(script: seq<Segment>, buff: string)
    requires Zeroed(buff)
    ensures var r, b := ReadSome(script, |buff|), AfterFirst(script, buff);
            var pos := FindChar(Prefix(b), ':');
            pos >= 0 ==> pos < |r.bytes| && r.bytes == Lead(script, buff) + ":" + b[pos + 1..|r.bytes|]
  {
    var r, b := ReadSome(script, |buff|), AfterFirst(script, buff);
    var p := Prefix(b);
    var pos := FindChar(p, ':');
    ColonReceived(script, buff);
    assert b[..|r.bytes|] == r.bytes && p <= b;
    if pos >= 0 { CutAtColon(b, |r.bytes|, p, pos); }
  }

  lemma AnnouncedColon(b: string)
    requires |b| >= 20 && Announced(b) != 0
    ensures FindChar(Prefix(b), ':') >= 0
  {
  }

  /** What any run of the reader returns. The prefix of the buffer it reports is exactly
      the bytes that the peer sent behind the colon, none lost and none changed, however
      they were cut into segments. */
  lemma ReadFromSpec(script: seq<Segment>, buff: string)
    requires Zeroed(buff) && Announced(AfterFirst(script, buff)) > 0 && !ReadSome(script, |buff|).ec
    ensures var o := ReadFrom(script, buff);
            && o.count <= |o.buff|
            && Stream(script) == Lead(script, buff) + ":" + (o.buff[..o.count] + Stream(o.rest))
  {
    hide ReadMore, Shifted, ReadSome, Stream, Lead, Prefix, Announced;
    var r, b := ReadSome(script, |buff|), AfterFirst(script, buff);
    var pos, goal := FindChar(Prefix(b), ':'), Announced(b);
    ReadSomeStream(script, |buff|);
    AnnouncedColon(b);
    FirstRead(script, buff);
    AfterCut(r.rest, r.bytes, b, pos, goal, Lead(script, buff), ReadFrom(script, buff));
  }

  lemma AfterCut(rest: seq<Segment>, bytes: string, b: string, pos: nat, goal: nat, lead: string, o: Outcome)
    requires pos < |bytes| <= |b| && bytes == lead + ":" + b[pos + 1..|bytes|]
    requires o == ReadMore(rest, Shifted(b, pos, goal), |bytes| - pos - 1, goal)
    ensures o.count <= |o.buff| && bytes + Stream(rest) == lead + ":" + (o.buff[..o.count] + Stream(o.rest))
  {
    hide ReadMore, Shifted, Stream;
    var x := b[pos + 1..|bytes|];
    AfterShift(rest, b, pos, goal, |bytes| - pos - 1, x, o);
    Regrouped(bytes, lead, x, Stream(rest), o.buff[..o.count] + Stream(o.rest));
  }

  lemma AfterShift(rest: seq<Segment>, b: string, pos: nat, goal: nat, n: nat, x: string, o: Outcome)
    requires pos + 1 + n <= |b| && x == b[pos + 1..pos + 1 + n] && o == ReadMore(rest, Shifted(b, pos, goal), n, goal)
    ensures o.count <= |o.buff| && x + Stream(rest) == o.buff[..o.count] + Stream(o.rest)
  {
    hide ReadMore, Shifted, Stream;
    KeptByShift(b, pos, goal, n, x);
    MoreConserves(rest, Shifted(b, pos, goal), n, goal);
  }

  lemma KeptByShift(b: string, pos: nat, goal: nat, n: nat, x: string)
    requires pos + 1 + n <= |b| && x == b[pos + 1..pos + 1 + n]
    ensures Shifted(b, pos, goal)[..n] == x
  {
    assert Shifted(b, pos, goal)[..n] == b[pos + 1..][..n];
  }

  lemma Regrouped(bytes: string, lead: string, x: string, rest: string, all: string)
    requires bytes == lead + ":" + x && all == x + rest
    ensures bytes + rest == lead + ":" + all
  {
  }

  // The first segment brings the number and its colon.
  lemma NumberSeen(script: seq<Segment>, buff: string, d: string)
    requires Zeroed(buff) && |d| < 20 && AllDigits(d)
    requires script != [] && script[0].Data? && d + ":" <= script[0].bytes
    ensures Lead(script, buff) == d && FindChar(Prefix(AfterFirst(script, buff)), ':') == |d|
  {
    var r, b := ReadSome(script, |buff|), AfterFirst(script, buff);
    assert (d + ":")[|d|] == ':' && d + ":" <= r.bytes;
    assert b[..|r.bytes|] == r.bytes;
    assert forall i :: 0 <= i <= |d| ==> b[i] == (d + ":")[i];
    PrefixKeeps(b, d);
    FindCharIs(Prefix(b), ':', |d|);
  }

  lemma PrefixKeeps(b: string, d: string)
    requires |b| >= 20 && |d| < 20 && AllDigits(d) && b[|d|] == ':' && forall i :: 0 <= i < |d| ==> b[i] == d[i]
    ensures |Prefix(b)| > |d| && Prefix(b)[|d|] == ':' && Prefix(b)[..|d|] == d && forall i :: 0 <= i < |d| ==> Prefix(b)[i] != ':'
  {
    var p := Prefix(b);
    assert forall i :: 0 <= i < |p| ==> p[i] == b[i];
    assert forall i :: 0 <= i < |d| ==> IsDigit(d[i]);
  }

  // The loop's part in a run of the reader.
  lemma ReadFromIs(script: seq<Segment>, buff: string) returns (r: Read, pos: nat, n: nat, large: string)
    requires Zeroed(buff) && Announced(AfterFirst(script, buff)) > 0 && !ReadSome(script, |buff|).ec
    ensures |buff| > 0 && r == ReadSome(script, |buff|) && pos == |Lead(script, buff)| < |r.bytes|
    ensures n == Announced(AfterFirst(script, buff)) && n <= |large| && |r.bytes| - pos - 1 <= |large|
    ensures |large| == n <==> |buff| == pos + 1 + n
    ensures ReadFrom(script, buff) == ReadMore(r.rest, large, |r.bytes| - pos - 1, n)
  {
    WrapsIff(script, buff);
    hide ReadMore, ReadSome, Shifted, Announced, Prefix, Wraps, Lead, FindChar, AfterFirst, Zeroed;
    LeadIs(script, buff);
    ZeroedSize(buff);
    var b := AfterFirst(script, buff);
    r, n := ReadSome(script, |buff|), Announced(b);
    pos := |Lead(script, buff)|;
    AnnouncedColon(b);
    ColonReceived(script, buff);
    ShiftedSize(b, pos, n);
    large := Shifted(b, pos, n);
  }

  lemma LeadIs(script: seq<Segment>, buff: string)
    requires Zeroed(buff) && Announced(AfterFirst(script, buff)) > 0
    ensures |Lead(script, buff)| == FindChar(Prefix(AfterFirst(script, buff)), ':')
    ensures |AfterFirst(script, buff)| == |buff|
  {
    AnnouncedColon(AfterFirst(script, buff));
  }

  lemma ShiftedSize(b: string, pos: nat, goal: nat)
    requires pos < |b|
    ensures var large := Shifted(b, pos, goal);
            goal <= |large| && |b| - pos - 1 <= |large| && (|large| == goal <==> |b| == pos + 1 + goal)
  {
  }

  /** How much it returns, for every script: never more than arrives before the first
      failed or empty read; and less than announced only if less arrives, and then all of
      it, with nothing read after that read. */
  lemma ReadFromCounts(script: seq<Segment>, buff: string)
    requires Zeroed(buff) && Announced(AfterFirst(script, buff)) > 0 && !ReadSome(script, |buff|).ec
    ensures var o, n, d := ReadFrom(script, buff), Announced(AfterFirst(script, buff)), |Lead(script, buff)| + 1;
            && d + o.count <= |Sent(script)|
            && (o.count < n ==> d + o.count == |Sent(script)| && o.rest == AfterStop(script))
  {
    hide Zeroed, ReadFrom, ReadMore, ReadSome, Lead, Announced, AfterFirst, Sent, AfterStop;
    var r, pos, n, large := ReadFromIs(script, buff);
    ReadSomeSent(script, |buff|);
    MoreCounts(r.rest, large, |r.bytes| - pos - 1, n);
  }

  /** And exactly as much as announced if and only if so much arrives before that read, and
      a segment, or the buffer of the first read, ends there. */
  lemma ReadFromExact(script: seq<Segment>, buff: string)
    requires Zeroed(buff) && Announced(AfterFirst(script, buff)) > 0 && !ReadSome(script, |buff|).ec
    ensures var n := Announced(AfterFirst(script, buff));
            var end := |Lead(script, buff)| + 1 + n;
            ReadFrom(script, buff).count == n <==> end <= |Sent(script)| && (Falls(script, end) || |buff| == end)
  {
    hide Zeroed, ReadFrom, ReadMore, ReadSome, Lead, Announced, AfterFirst, Sent, Falls;
    var r, pos, n, large := ReadFromIs(script, buff);
    ExactAfter(script, |buff|, r, pos, n, large);
  }

  lemma ExactAfter(script: seq<Segment>, size: nat, r: Read, pos: nat, n: nat, large: string)
    requires size > 0 && r == ReadSome(script, size) && !r.ec && pos < |r.bytes| && n > 0
    requires n <= |large| && |r.bytes| - pos - 1 <= |large| && (|large| == n <==> size == pos + 1 + n)
    ensures ReadMore(r.rest, large, |r.bytes| - pos - 1, n).count == n
       <==> pos + 1 + n <= |Sent(script)| && (Falls(script, pos + 1 + n) || size == pos + 1 + n)
  {
    hide ReadMore, ReadSome, Sent, Falls;
    ReadSomeSent(script, size);
    MoreExact(r.rest, large, |r.bytes| - pos - 1, n);
    if pos + 1 + n != size { ReadSomeFalls(script, size, pos + 1 + n); }
  }

  // ---- success and failure, for every script ----

  /** What the first read brings, as far as the number is looked for in it. */
  function Opening(script: seq<Segment>): string {
    if script == [] || script[0].Fault? then ""
    else CStr(script[0].bytes[..if |script[0].bytes| < 20 then |script[0].bytes| else 20])
  }

  /** The number the peer announces: what stands in front of the first colon of these bytes,
      0 if there is no colon or nothing has come. */
  function Heralded(script: seq<Segment>): int {
    var pos := FindChar(Opening(script), ':');
    if pos < 0 then 0 else Atoi(Opening(script)[..pos])
  }

  lemma {:induction false} CStrPadded(x: string, pad: string)
    requires forall i :: 0 <= i < |pad| ==> pad[i] == '\0'
    ensures CStr(x + pad) == CStr(x)
  {
    if x == "" {
      assert x + pad == pad;
    } else {
      assert (x + pad)[1..] == x[1..] + pad;
      CStrPadded(x[1..], pad);
    }
  }

  // The buffer shows what has been received.
  lemma OpeningSeen(script: seq<Segment>, buff: string)
    requires Zeroed(buff) && !ReadSome(script, |buff|).ec
    ensures Prefix(AfterFirst(script, buff)) == Opening(script)
  {
    var r, b := ReadSome(script, |buff|), AfterFirst(script, buff);
    var n := if |script[0].bytes| < 20 then |script[0].bytes| else 20;
    var x := script[0].bytes[..n];
    assert b[..|r.bytes|] == r.bytes && |r.bytes| >= n && r.bytes[..n] == x;
    assert b[..20] == x + b[n..20];
    forall i | 0 <= i < 20 - n ensures b[n..20][i] == '\0' { assert b[n + i] == buff[n + i]; }
    CStrPadded(x, b[n..20]);
  }

  /** Success and failure, for every script: the count is never more than what arrives before
      the first failed or empty read, and it is 0, which the caller takes for a failure,
      unless the peer announces a positive number at once and something of a payload arrives
      behind the colon. */
  lemma SucceedsIff(script: seq<Segment>, buff: string)
    requires Zeroed(buff)
    ensures var o := ReadFrom(script, buff);
            && o.count <= |Sent(script)|
            && (o.count > 0 <==> Heralded(script) > 0 && FindChar(Opening(script), ':') + 1 < |Sent(script)|)
            && (Heralded(script) > 0 && o.count < Heralded(script) ==>
                  FindChar(Opening(script), ':') + 1 + o.count == |Sent(script)| && o.rest == AfterStop(script))
  {
    hide ReadMore, Shifted, Sent, AfterStop, Falls, CStr, FindChar, Atoi;
    if !ReadSome(script, |buff|).ec {
      OpeningSeen(script, buff);
      assert Announced(AfterFirst(script, buff)) == Heralded(script);
      if Heralded(script) > 0 {
        LeadIs(script, buff);
        hide ReadFrom, Opening, Prefix, Announced, Lead;
        ReadFromCounts(script, buff);
      } else {
        NothingReported(script, buff);
      }
    }
  }

  lemma NothingReported(script: seq<Segment>, buff: string)
    requires Zeroed(buff) && !ReadSome(script, |buff|).ec && Announced(AfterFirst(script, buff)) <= 0
    ensures ReadFrom(script, buff).count == 0
  {
    hide ReadMore, Shifted;
  }

  /** Round trip: whatever payload gets through behind its announced length and a colon
      before the first failed or empty read, in any segmentation whose first segment brings
      the colon, the reader returns a prefix of it: the whole payload when it is no longer
      than announced, else at least as many bytes as announced; and exactly that many if
      and only if a segment or the buffer of the first read ends there. */
  lemma Reassembly(script: seq<Segment>, buff: string, n: nat, payload: string)
    requires Zeroed(buff) && |Decimal(n)| < 20 && n > 0
    requires script != [] && script[0].Data? && Decimal(n) + ":" <= script[0].bytes
    requires Sent(script) == Decimal(n) + ":" + payload
    ensures Announced(AfterFirst(script, buff)) == n
    ensures var o, end := ReadFrom(script, buff), |Decimal(n)| + 1 + n;
            && o.count <= |o.buff| && o.buff[..o.count] <= payload
            && (|payload| <= n ==> o.buff[..o.count] == payload)
            && (|payload| >= n ==> o.count >= n)
            && (o.count < n ==> o.rest == AfterStop(script))
            && (o.count == n <==> |payload| >= n && (Falls(script, end) || |buff| == end))
  {
    hide ReadFrom, Prefix, Falls, Sent, AfterStop, Announced, Lead, ReadSome, Decimal, Zeroed, AfterFirst;
    var d := Decimal(n);
    ZeroedSize(buff);
    NumberSeen(script, buff, d);
    AtoiOfDecimal(n, "");
    assert d + "" == d;
    Announces(script, buff, d, n);
    FirstSucceeds(script, |buff|);
    ReadFromSpec(script, buff);
    ReadFromCounts(script, buff);
    ReadFromExact(script, buff);
    SentFirst(script);
    var o := ReadFrom(script, buff);
    PrefixOf(Stream(script), d + ":", payload, o.buff[..o.count], Stream(o.rest));
  }

  lemma ZeroedSize(buff: string)
    requires Zeroed(buff)
    ensures |buff| >= 20
  {
  }

  lemma FirstSucceeds(script: seq<Segment>, n: nat)
    requires script != [] && script[0].Data?
    ensures !ReadSome(script, n).ec
  {
  }

  lemma Announces(script: seq<Segment>, buff: string, d: string, n: nat)
    requires Zeroed(buff) && Lead(script, buff) == d && FindChar(Prefix(AfterFirst(script, buff)), ':') == |d| && Atoi(d) == n
    ensures Announced(AfterFirst(script, buff)) == n
  {
  }

  lemma PrefixOf(all: string, d: string, payload: string, got: string, rest: string)
    requires d + payload <= all && all == d + (got + rest) && |got| <= |payload|
    ensures got <= payload && (|got| == |payload| ==> got == payload)
  {
    assert payload == all[|d|..][..|payload|] && got + rest == all[|d|..];
    assert got == all[|d|..][..|got|];
  }

  /** With one byte announced and two sent at once, it returns both. */
  lemma MoreThanAnnounced(buff: string)
    requires Zeroed(buff)
    ensures Announced(AfterFirst([Data("1:ab")], buff)) == 1 && ReadFrom([Data("1:ab")], buff).count == 2
  {
    var script := [Data("1:ab")];
    assert Decimal(1) == "1" && "1" + ":" == "1:" && "1:" + "ab" == "1:ab";
    Unfolded(script);
    assert Sent(script[1..]) == "" && Sent(script) == "1:" + "ab";
    Reassembly(script, buff, 1, "ab");
    assert !Falls(script, 3);
  }

  // ---- the program ----

  class Socket {
    var script: seq<Segment>

    method Receive(n: nat) returns (bytes: string, ec: bool)
      modifies this
      ensures Read(bytes, ec, script) == ReadSome(old(script), n)
    {
      var r := ReadSome(script, n);
      bytes, ec, script := r.bytes, r.ec, r.rest;
    }
  }

  class Vector {
    var data: string
  }

  /** sync_read_from, up to where a size wraps around. */
  method SyncReadFrom(sock: Socket, readBuff: Vector) returns (count: nat, wraps: bool)
    requires |readBuff.data| >= 20
    modifies sock, readBuff
    ensures wraps <==> Wraps(old(sock.script), old(readBuff.data))
    ensures Outcome(count, readBuff.data, sock.script) == ReadFrom(old(sock.script), old(readBuff.data))
  {
    hide ReadMore, ReadSome, FindChar, Atoi, CStr, Overwrite;
    wraps := false;
    var bytes, ec := sock.Receive(|readBuff.data|);
    if ec { return 0, false; }
    readBuff.data := Overwrite(readBuff.data, 0, bytes);
    var lenStr := CStr(readBuff.data[..20]);
    var pos := FindChar(lenStr, ':');
    if pos < 0 { return 0, false; }
    var realLen := Atoi(lenStr[..pos]);
    if realLen == 0 { return 0, false; }
    if realLen < 0 || pos >= |bytes| { return 0, true; }
    ghost var received := readBuff.data;
    readBuff.data := readBuff.data[pos + 1..];
    if realLen > |readBuff.data| {
      readBuff.data := Resized(readBuff.data, realLen + 256);
    }
    assert readBuff.data == Shifted(received, pos, realLen);
    count := ReceiveRest(sock, readBuff, |bytes| - pos - 1, realLen);
  }

  /** Its loop. */
  method ReceiveRest(sock: Socket, readBuff: Vector, actualLen: nat, realLen: nat) returns (count: nat)
    requires actualLen <= |readBuff.data| && realLen <= |readBuff.data|
    modifies sock, readBuff
    ensures Outcome(count, readBuff.data, sock.script)
         == ReadMore(old(sock.script), old(readBuff.data), actualLen, realLen)
  {
    hide ReadSome, Stream, Resized;
    count := actualLen;
    while count < realLen
      invariant count <= |readBuff.data| && realLen <= |readBuff.data|
      invariant ReadMore(sock.script, readBuff.data, count, realLen)
             == ReadMore(old(sock.script), old(readBuff.data), actualLen, realLen)
      decreases realLen - count
    {
      var bytes, ec := sock.Receive(|readBuff.data| - count);
      if ec || |bytes| == 0 { return count; }
      readBuff.data := Overwrite(readBuff.data, count, bytes);
      count := count + |bytes|;
    }
  }
}
