/** The timing wheel over time: buckets as countdowns, and when an idle connection is
    evicted, with every other actor interleaved at will. */
module Wheel {
  import opened Lifecycle
  import opened Protocol
  import opened Recycling
  import opened Invariant

  // ---- buckets as countdowns ----

  ghost predicate SameButLast(w: seq<set<Conn>>, v: seq<set<Conn>>) {
    |w| == |v| == BUCKETS && (forall i :: 0 <= i < BUCKETS - 1 ==> w[i] == v[i]) && w[BUCKETS - 1] <= v[BUCKETS - 1]
  }

  predicate OfWheel(a: Action) {
    a.WheelCopies? || a.WheelVisits? || a.WheelPushes?
  }

  lemma ManageOnWheel(cfg: Config, s: State, a: Action)
    requires Inv(cfg, s) && Allowed(cfg, s, a) && a.ManageRuns?
    ensures var t := Next(cfg, s, a);
            SameButLast(s.wheel, t.wheel) && t.ticks == s.ticks && t.scan == s.scan && t.due == s.due && t.now == s.now
  {
    InvOrderly(cfg, s);
    PassSpec(cfg, s, a.order);
  }

  /** The other actors do not touch the timer or the running check, and only add to the
      last bucket. */
  lemma OthersOnWheel(cfg: Config, s: State, a: Action)
    requires Inv(cfg, s) && Allowed(cfg, s, a) && !OfWheel(a)
    ensures var t := Next(cfg, s, a);
            && SameButLast(s.wheel, t.wheel) && t.ticks == s.ticks && t.scan == s.scan && t.due == s.due
            && t.now == s.now + (if a.ClockTicks? then a.d else 0)
  {
    if a.ManageRuns? {
      ManageOnWheel(cfg, s, a);
    } else if a.AcceptEmplaced? {
      var _ := EmplaceResult(cfg, s, a.c);
    }
  }

  lemma StepOnWheel(cfg: Config, s: State, a: Action)
    requires Inv(cfg, s) && Allowed(cfg, s, a)
    ensures var t := Next(cfg, s, a);
            if a.WheelPushes? then t.wheel == s.wheel[1..] + [s.scan.modi] && t.ticks == s.ticks + 1
            else SameButLast(s.wheel, t.wheel) && t.ticks == s.ticks
  {
    hide Inv, ManagePass, Emplace;
    if !OfWheel(a) { OthersOnWheel(cfg, s, a); }
  }

  // Bucket i of w has become bucket i - n of v.
  ghost predicate Rotated(w: seq<set<Conn>>, v: seq<set<Conn>>, i: nat, n: nat) {
    && |w| == |v| == BUCKETS
    && (n <= i < BUCKETS ==> w[i] <= v[i - n] && (i < BUCKETS - 1 ==> w[i] == v[i - n]))
  }

  /** However the actors interleave, n rotations later bucket i has become bucket i - n,
      with the same entries; only the last bucket ever gains any, so no insert is lost to
      a rotation. */
  lemma {:induction false} BucketsCountDown(cfg: Config, run: Run, k: nat, i: nat)
    requires IsRun(cfg, run) && Inv(cfg, run.First()) && k < |run.states| && i < BUCKETS
    ensures run.First().ticks <= run.states[k].ticks
    ensures Rotated(run.First().wheel, run.states[k].wheel, i, run.states[k].ticks - run.First().ticks)
  {
    hide Inv, Next, Allowed, Rotated;
    if k == 0 {
      NotYetRotated(cfg, run.First(), i);
    } else {
      BucketsCountDown(cfg, run, k - 1, i);
      InvRun(cfg, run, k - 1);
      StepRotates(cfg, run.states[k - 1], run.acts[k - 1], run.states[k], run.First().wheel, run.First().ticks, i);
    }
  }

  lemma NotYetRotated(cfg: Config, s: State, i: nat)
    requires Inv(cfg, s)
    ensures Rotated(s.wheel, s.wheel, i, 0)
  {
  }

  lemma StepRotates(cfg: Config, s: State, a: Action, t: State, w: seq<set<Conn>>, ticks: nat, i: nat)
    requires Inv(cfg, s) && Allowed(cfg, s, a) && t == Next(cfg, s, a) && ticks <= s.ticks
    requires Rotated(w, s.wheel, i, s.ticks - ticks)
    ensures ticks <= t.ticks && Rotated(w, t.wheel, i, t.ticks - ticks)
  {
    hide Inv, Next, Allowed;
    StepOnWheel(cfg, s, a);
    RotationStep(w, s.wheel, t.wheel, i, s.ticks - ticks);
  }

  lemma RotationStep(w: seq<set<Conn>>, v: seq<set<Conn>>, v': seq<set<Conn>>, i: nat, n: nat)
    requires Rotated(w, v, i, n) && |v'| == BUCKETS
    ensures SameButLast(v, v') ==> Rotated(w, v', i, n)
    ensures v[1..] == v'[..BUCKETS - 1] ==> Rotated(w, v', i, n + 1)
  {
    if v[1..] == v'[..BUCKETS - 1] && n + 1 <= i < BUCKETS {
      assert v[i - n] == v[1..][i - n - 1];
    }
  }

  ghost predicate VisitedAt(run: Run, k: int, tick: int, c: Conn) {
    exists j :: 0 <= j < k && j < |run.acts| && j < |run.states|
                && run.acts[j] == WheelVisits(c) && run.states[j].ticks == tick
  }

  /** Nothing of check `tick` that concerns c is still to come. */
  predicate Passed(s: State, tick: int, c: Conn) {
    s.ticks > tick || (s.ticks == tick && s.scan.Scanning? && c !in s.scan.toVisit)
  }

  /** An entry of bucket i is visited in the (i + 1)-th check from now: that check cannot
      end before the entry has been visited. */
  lemma {:induction false} EntryIsVisited(cfg: Config, run: Run, k: nat, i: nat, c: Conn)
    requires IsRun(cfg, run) && Inv(cfg, run.First()) && k < |run.states| && i < BUCKETS
    requires c in run.First().wheel[i] && (i == 0 ==> run.First().scan.Idle?)
    ensures var tick := run.First().ticks + i; Passed(run.states[k], tick, c) ==> VisitedAt(run, k, tick, c)
  {
    hide Inv, Next, Allowed;
    if k > 0 {
      EntryIsVisited(cfg, run, k - 1, i, c);
      BucketsCountDown(cfg, run, k - 1, i);
      InvRun(cfg, run, k - 1);
      var s, a, tick := run.states[k - 1], run.acts[k - 1], run.First().ticks + i;
      EntryStep(cfg, s, a, run.states[k], tick, c);
      if VisitedAt(run, k - 1, tick, c) || (a == WheelVisits(c) && s.ticks == tick) { assert VisitedAt(run, k, tick, c); }
    }
  }

  lemma EntryStep(cfg: Config, s: State, a: Action, t: State, tick: int, c: Conn)
    requires Inv(cfg, s) && Allowed(cfg, s, a) && t == Next(cfg, s, a) && (s.ticks == tick ==> c in s.wheel[0])
    ensures Passed(t, tick, c) ==> Passed(s, tick, c) || (a == WheelVisits(c) && s.ticks == tick)
  {
    hide Next, Inv;
    StepOnWheel(cfg, s, a);
    StepOnScan(cfg, s, a);
  }

  /** And no other entry is: what is visited i checks from now is in bucket i now, but for the
      last bucket, which the others still add to. */
  lemma VisitedWasThere(cfg: Config, run: Run, k: nat, i: nat, c: Conn)
    requires IsRun(cfg, run) && Inv(cfg, run.First()) && k < |run.acts| && i < BUCKETS - 1
    requires run.acts[k] == WheelVisits(c) && run.states[k].ticks == run.First().ticks + i
    ensures |run.First().wheel| == BUCKETS && c in run.First().wheel[i]
  {
    InvRun(cfg, run, k);
    BucketsCountDown(cfg, run, k, i);
    hide Next, Owned, Counted, AcceptOk, LifeOk, Supervised;
    assert Allowed(cfg, run.states[k], run.acts[k]);
  }

  lemma StepOnScan(cfg: Config, s: State, a: Action)
    requires Inv(cfg, s) && Allowed(cfg, s, a)
    ensures var t := Next(cfg, s, a);
            && (a.WheelCopies? ==> t.scan == Scanning(s.wheel[0], s.wheel[0]))
            && (a.WheelVisits? ==> t.scan.Scanning? && s.scan.Scanning? && s.scan.toVisit - {a.c} <= t.scan.toVisit)
            && (a.WheelPushes? ==> t.scan.Idle? && s.scan.Scanning? && s.scan.toVisit == {})
            && (!OfWheel(a) ==> t.scan == s.scan)
  {
    if !OfWheel(a) { OthersOnWheel(cfg, s, a); }
  }

  // ---- what a visit does ----

  /** An object of the map that has been idle for less than expire - spare. */
  ghost predicate StaysOn(cfg: Config, s: State, c: Conn) {
    c in s.front && c in s.conns && s.now < s.conns[c].touch + cfg.expire - cfg.Spare()
  }

  /** A visit erases its entry from the modified copy of the bucket unless the object stays
      on, and touches no other entry; it marks an object of the map that does not stay on and
      puts it up for removal; and it does nothing else. */
  lemma VisitMeans(cfg: Config, s: State, c: Conn)
    requires Inv(cfg, s) && Allowed(cfg, s, WheelVisits(c)) && !Next(cfg, s, WheelVisits(c)).aborted
    ensures var t := Next(cfg, s, WheelVisits(c));
            && s.scan.Scanning? && t.scan.Scanning? && t.scan.toVisit == s.scan.toVisit - {c}
            && t.scan.modi == (if StaysOn(cfg, s, c) then s.scan.modi else s.scan.modi - {c})
            && c in s.scan.modi
            && t.pending == (if c in s.front && !StaysOn(cfg, s, c) then s.pending + {c} else s.pending)
            && t.conns == (if c in s.front && !StaysOn(cfg, s, c) then s.conns[c := s.conns[c].(stats := Error)] else s.conns)
            && t == s.(scan := t.scan, pending := t.pending, conns := t.conns)
  {
    assert LifeOk(s, c);
    assert c in multiset(s.cached) <==> c in s.cached;
    assert s.conns == s.conns[c := s.conns[c]];
    hide Supervised, Counted, Expired;
    TimeIsUp(cfg, s, c);
  }

  lemma TimeIsUp(cfg: Config, s: State, c: Conn)
    ensures c in s.front && c in s.conns ==> (Expired(cfg, s.conns[c].touch, s.now) <==> !StaysOn(cfg, s, c))
  {
  }

  // Between the visit of an entry and the rotation nothing changes whether it is kept.
  lemma KeptUntilPush(cfg: Config, s: State, a: Action, t: State, c: Conn)
    requires Inv(cfg, s) && Allowed(cfg, s, a) && t == Next(cfg, s, a) && !t.aborted && !a.WheelPushes?
    requires s.scan.Scanning? && c !in s.scan.toVisit
    ensures t.scan.Scanning? && c !in t.scan.toVisit && (c in t.scan.modi <==> c in s.scan.modi)
  {
    hide Inv, Next, Allowed;
    if a.WheelVisits? {
      ReadyToVisit(cfg, s, a.c);
      VisitMeans(cfg, s, a.c);
    } else {
      NotCopied(cfg, s, a);
      OthersOnWheel(cfg, s, a);
    }
  }

  lemma ReadyToVisit(cfg: Config, s: State, c: Conn)
    requires Allowed(cfg, s, WheelVisits(c))
    ensures s.scan.Scanning? && c in s.scan.toVisit
  {
  }

  lemma NotCopied(cfg: Config, s: State, a: Action)
    requires Allowed(cfg, s, a) && s.scan.Scanning?
    ensures !a.WheelCopies?
  {
  }

  /** The bucket that a check pushes back, over runs: of the entries that it has visited it
      holds exactly those whose objects stayed on when they were visited. No entry of an
      object that was cached, released or evicted is kept. */
  lemma {:induction false} PushedEntries(cfg: Config, run: Run, k: nat, p: nat, c: Conn)
    requires IsRun(cfg, run) && Inv(cfg, run.First()) && k < p < |run.states|
    requires k < |run.acts| && run.acts[k] == WheelVisits(c) && run.states[k].ticks == run.states[p].ticks
    requires !run.states[p].aborted
    ensures run.states[p].scan.Scanning? && c !in run.states[p].scan.toVisit
    ensures c in run.states[p].scan.modi <==> StaysOn(cfg, run.states[k], c)
    decreases p
  {
    hide Inv, Allowed, Next, StaysOn, IsRun;
    StepOf(cfg, run, p);
    var s, a, t := run.states[p - 1], run.acts[p - 1], run.states[p];
    if k == p - 1 {
      VisitMeans(cfg, s, c);
    } else {
      TicksGrow(cfg, run, k, p - 1);
      StepOnWheel(cfg, s, a);
      PushedEntries(cfg, run, k, p - 1, c);
      KeptUntilPush(cfg, s, a, t, c);
    }
  }

  lemma StepOf(cfg: Config, run: Run, p: nat)
    requires IsRun(cfg, run) && Inv(cfg, run.First()) && 0 < p < |run.states|
    ensures |run.states| == |run.acts| + 1 && Inv(cfg, run.states[p - 1]) && !run.states[p - 1].aborted
    ensures Allowed(cfg, run.states[p - 1], run.acts[p - 1])
    ensures run.states[p] == Next(cfg, run.states[p - 1], run.acts[p - 1])
  {
    InvRun(cfg, run, p - 1);
    assert Allowed(cfg, run.states[p - 1], run.acts[p - 1]);
  }

  lemma {:induction false} TicksGrow(cfg: Config, run: Run, k: nat, p: nat)
    requires IsRun(cfg, run) && Inv(cfg, run.First()) && k <= p < |run.states|
    ensures run.states[k].ticks <= run.states[p].ticks
    decreases p
  {
    hide Inv, Allowed, Next, IsRun;
    if k < p {
      TicksGrow(cfg, run, k, p - 1);
      StepOf(cfg, run, p);
      StepOnWheel(cfg, run.states[p - 1], run.acts[p - 1]);
    }
  }

  /** So the new last bucket, right after the rotation. */
  lemma PushedBucket(cfg: Config, run: Run, k: nat, p: nat, c: Conn)
    requires IsRun(cfg, run) && Inv(cfg, run.First()) && k < p < |run.acts|
    requires run.acts[k] == WheelVisits(c) && run.states[k].ticks == run.states[p].ticks && run.acts[p].WheelPushes?
    ensures |run.states[p + 1].wheel| == BUCKETS
    ensures c in run.states[p + 1].wheel[BUCKETS - 1] <==> StaysOn(cfg, run.states[k], c)
  {
    assert Allowed(cfg, run.states[p], run.acts[p]);
    InvRun(cfg, run, p);
    StepOnWheel(cfg, run.states[p], run.acts[p]);
    PushedEntries(cfg, run, k, p, c);
  }

  // ---- the removal list ----

  /** A step that reports a failure of c. */
  predicate Reports(a: Action, c: Conn) {
    a == ReadCompletes(c, ReadFailed) || a == WriteCompletes(c, WriteFailed)
  }

  /** A connection comes onto the removal list exactly when an operation on it fails or a
      visit finds it idle too long; it is marked then; and only a pass takes it off. */
  lemma PushedExactly(cfg: Config, s: State, a: Action, t: State, c: Conn)
    requires Inv(cfg, s) && Allowed(cfg, s, a) && t == Next(cfg, s, a) && !t.aborted
    ensures c in t.pending <==> Reports(a, c) || (a == WheelVisits(c) && c in s.front && !StaysOn(cfg, s, c))
                                || (c in s.pending && !a.ManageRuns?)
    ensures Reports(a, c) || (a == WheelVisits(c) && c in s.front && !StaysOn(cfg, s, c)) ==>
              c in t.conns && t.conns[c].stats.Error?
  {
    hide Inv, Next, Allowed, StaysOn;
    if a.WheelVisits? {
      VisitMeans(cfg, s, a.c);
      InFront(cfg, s);
    } else if a.AcceptEmplaced? {
      var _ := EmplaceResult(cfg, s, a.c);
    } else {
      OthersPush(cfg, s, a, t, c);
    }
  }

  lemma OthersPush(cfg: Config, s: State, a: Action, t: State, c: Conn)
    requires Allowed(cfg, s, a) && t == Next(cfg, s, a) && !a.WheelVisits? && !a.AcceptEmplaced?
    ensures c in t.pending <==> Reports(a, c) || (c in s.pending && !a.ManageRuns?)
    ensures Reports(a, c) ==> c in t.conns && t.conns[c].stats.Error?
  {
    hide ManageItems;
  }

  lemma InFront(cfg: Config, s: State)
    requires Inv(cfg, s)
    ensures s.front <= s.conns.Keys
  {
  }

  // ---- eviction times ----

  /** The timer fires on time and a check takes no time: the wheel moves when the timer
      is due, and the clock does not pass that moment. */
  predicate Prompt(s: State, a: Action) {
    && (a.WheelCopies? || a.WheelVisits? || a.WheelPushes? ==> s.now == s.due)
    && (a.ClockTicks? ==> s.now + a.d <= s.due)
  }

  predicate TimerOk(cfg: Config, s: State) {
    s.now <= s.due <= s.now + cfg.Spare() && (s.scan.Scanning? ==> s.now == s.due)
  }

  /** `c` is idle: no read of it ends and no write of it fails. Its replies may go out. */
  predicate LeavesAlone(a: Action, c: Conn) {
    (a.ReadCompletes? ==> a.c != c) && (a.WriteCompletes? && a.c == c ==> a.we.Written?)
  }

  ghost predicate QuietRun(cfg: Config, run: Run, c: Conn) {
    IsRun(cfg, run) && forall k :: 0 <= k < |run.acts| ==> Prompt(run.states[k], run.acts[k]) && LeavesAlone(run.acts[k], c)
  }

  /** Some entry of `c` has its next visit before time b. */
  ghost predicate VisitBefore(cfg: Config, s: State, c: Conn, b: int)
    requires |s.wheel| == BUCKETS
  {
    || (exists i :: 1 <= i < BUCKETS && c in s.wheel[i] && s.due + i * cfg.Spare() < b)
    || (s.scan.Idle? && c in s.wheel[0] && s.due < b)
    || (s.scan.Scanning? && c in s.scan.toVisit && s.due < b)
    || (s.scan.Scanning? && c in s.scan.modi && c !in s.scan.toVisit && s.due + BUCKETS * cfg.Spare() < b)
  }

  function Deadline(cfg: Config, t: int): int {
    t + cfg.expire + (BUCKETS - 1) * cfg.Spare()
  }

  /** A working connection with touch time t that the wheel visits before time b. */
  ghost predicate Watched(cfg: Config, s: State, c: Conn, t: int, b: int)
    requires |s.wheel| == BUCKETS
  {
    && c in s.front && c !in s.pending && c in s.conns
    && s.conns[c].stats.Working? && s.conns[c].touch == t
    && VisitBefore(cfg, s, c, b)
  }

  lemma StillTimed(cfg: Config, s: State, a: Action)
    requires TimerOk(cfg, s) && Inv(cfg, s) && Allowed(cfg, s, a) && Prompt(s, a)
    ensures TimerOk(cfg, Next(cfg, s, a))
  {
    if !OfWheel(a) { OthersOnWheel(cfg, s, a); }
  }

  /** Steps of the others leave a watched connection's life alone. */
  lemma LifeKept(cfg: Config, s: State, a: Action, c: Conn)
    requires Inv(cfg, s) && Allowed(cfg, s, a) && LeavesAlone(a, c) && a != WheelVisits(c)
    requires c in s.front && c !in s.pending && s.conns[c].stats.Working?
    ensures var t := Next(cfg, s, a);
            && c in t.front && c !in t.pending && c in t.conns
            && t.conns[c].stats == s.conns[c].stats && t.conns[c].touch == s.conns[c].touch
  {
    if a.ManageRuns? {
      InvOrderly(cfg, s);
      PassSpec(cfg, s, a.order);
      forall d | d in Next(cfg, s, a).cached ensures d != c {
        var r := Next(cfg, s, a);
        var i :| 0 <= i < |r.cached| && r.cached[i] == d;
        if i < |s.cached| { assert d in s.cached; }
      }
    } else if a.AcceptEmplaced? {
      var _ := EmplaceResult(cfg, s, a.c);
    }
  }

  lemma VisitKept(cfg: Config, s: State, a: Action, c: Conn, b: int)
    requires Inv(cfg, s) && Allowed(cfg, s, a) && Prompt(s, a) && a != WheelVisits(c)
    requires VisitBefore(cfg, s, c, b)
    ensures |Next(cfg, s, a).wheel| == BUCKETS && VisitBefore(cfg, Next(cfg, s, a), c, b)
  {
    if a.WheelPushes? {
      VisitKeptByPush(cfg, s, Next(cfg, s, a), c, b);
    } else {
      if !OfWheel(a) { OthersOnWheel(cfg, s, a); }
      VisitKeptInPlace(cfg, s, Next(cfg, s, a), c, b);
    }
  }

  lemma VisitKeptInPlace(cfg: Config, s: State, t: State, c: Conn, b: int)
    requires SameButLast(s.wheel, t.wheel) && t.due == s.due && VisitBefore(cfg, s, c, b)
    requires s.scan.Idle? ==> t.scan.Idle? || t.scan == Scanning(s.wheel[0], s.wheel[0])
    requires s.scan.Scanning? ==> t.scan.Scanning? && (c in s.scan.toVisit <==> c in t.scan.toVisit)
    requires s.scan.Scanning? && c in s.scan.modi ==> c in t.scan.modi
    ensures VisitBefore(cfg, t, c, b)
  {
    if i :| 1 <= i < BUCKETS && c in s.wheel[i] && s.due + i * cfg.Spare() < b {
      assert c in t.wheel[i];
    }
  }

  lemma VisitKeptByPush(cfg: Config, s: State, t: State, c: Conn, b: int)
    requires |s.wheel| == BUCKETS && s.scan.Scanning? && s.scan.toVisit == {} && s.now == s.due
    requires t.wheel == s.wheel[1..] + [s.scan.modi] && t.scan.Idle? && t.due == s.now + cfg.Spare()
    requires VisitBefore(cfg, s, c, b)
    ensures VisitBefore(cfg, t, c, b)
  {
    if i :| 1 <= i < BUCKETS && c in s.wheel[i] && s.due + i * cfg.Spare() < b {
      assert c in t.wheel[i - 1] && i * cfg.Spare() == (i - 1) * cfg.Spare() + cfg.Spare();
    } else {
      assert c in t.wheel[BUCKETS - 1] && t.due + (BUCKETS - 1) * cfg.Spare() < b;
    }
  }

  /** The visit by which the wheel evicts c, touched at t, before time b. */
  ghost predicate Evicts(cfg: Config, s: State, a: Action, s': State, c: Conn, t: int, b: int) {
    && a == WheelVisits(c) && c in s'.pending && c in s'.conns && s'.conns[c].stats.Error?
    && t + cfg.expire - cfg.Spare() <= s.now < b
  }

  /** One step on a watched connection: it stays watched, or this step evicts it. */
  lemma WatchStep(cfg: Config, s: State, a: Action, c: Conn, t: int, b: int)
    requires cfg.expire > BUCKETS && Inv(cfg, s) && Allowed(cfg, s, a) && Prompt(s, a) && TimerOk(cfg, s)
    requires LeavesAlone(a, c) && Watched(cfg, s, c, t, b) && Deadline(cfg, t) <= b
    ensures var s' := Next(cfg, s, a);
            |s'.wheel| == BUCKETS && (Watched(cfg, s', c, t, b) || Evicts(cfg, s, a, s', c, t, b))
  {
    if a != WheelVisits(c) {
      hide Next, Inv, VisitBefore;
      LifeKept(cfg, s, a, c);
      VisitKept(cfg, s, a, c, b);
    } else {
      WatchVisit(cfg, s, c, t, b, Next(cfg, s, a));
    }
  }

  lemma WatchVisit(cfg: Config, s: State, c: Conn, t: int, b: int, s': State)
    requires cfg.expire > BUCKETS && Inv(cfg, s) && Allowed(cfg, s, WheelVisits(c))
    requires Prompt(s, WheelVisits(c)) && TimerOk(cfg, s)
    requires Watched(cfg, s, c, t, b) && Deadline(cfg, t) <= b && s' == Visit(cfg, s, c)
    ensures |s'.wheel| == BUCKETS && (Watched(cfg, s', c, t, b) || Evicts(cfg, s, WheelVisits(c), s', c, t, b))
  {
    hide AcceptOk, Counted, Supervised;
    if !Expired(cfg, t, s.now) {
      assert s'.due + BUCKETS * cfg.Spare() < Deadline(cfg, t);
      assert c in s'.scan.modi && c !in s'.scan.toVisit;
    }
  }

  ghost predicate JustTouched(cfg: Config, s: State, c: Conn) {
    && Inv(cfg, s) && TimerOk(cfg, s) && c in s.front && c !in s.pending
    && s.conns[c].stats.Working? && s.conns[c].touch == s.now
  }

  /** A supervised connection that has just been touched is watched. */
  lemma TouchedIsWatched(cfg: Config, s: State, c: Conn)
    requires cfg.expire > BUCKETS && JustTouched(cfg, s, c)
    ensures Watched(cfg, s, c, s.now, Deadline(cfg, s.now))
  {
    var spare := cfg.Spare();
    assert spare >= 1 && BUCKETS * spare <= cfg.expire;
    if c !in Survivors(s) {
      var i :| 1 <= i < BUCKETS && c in s.wheel[i];
      assert i * spare <= (BUCKETS - 1) * spare;
    }
  }

  ghost predicate EvictedBy(cfg: Config, run: Run, k: int, c: Conn, t: int, b: int) {
    exists j :: 0 <= j < k && j < |run.acts| && j + 1 < |run.states|
      && Evicts(cfg, run.states[j], run.acts[j], run.states[j + 1], c, t, b)
  }

  ghost predicate WaitsAt(cfg: Config, s: State, c: Conn, t: int, b: int) {
    Inv(cfg, s) && TimerOk(cfg, s) && Watched(cfg, s, c, t, b)
  }

  /** A watched connection that stays idle is in the map and not up for removal until a
      visit evicts it, no earlier than t + expire - spare and before b; the clock does not
      reach b without it. */
  lemma {:induction false} WatchedIsEvicted(cfg: Config, run: Run, c: Conn, t: int, b: int, k: nat)
    requires cfg.expire > BUCKETS && QuietRun(cfg, run, c) && k < |run.states|
    requires WaitsAt(cfg, run.First(), c, t, b) && Deadline(cfg, t) <= b
    ensures EvictedBy(cfg, run, k, c, t, b) || (WaitsAt(cfg, run.states[k], c, t, b) && run.states[k].now < b)
  {
    hide WaitsAt, Evicts, Next, Allowed, Prompt, LeavesAlone;
    if k == 0 {
      WaitsInTime(cfg, run.First(), c, t, b);
    } else {
      WatchedIsEvicted(cfg, run, c, t, b, k - 1);
      if EvictedBy(cfg, run, k - 1, c, t, b) {
        assert EvictedBy(cfg, run, k, c, t, b);
      } else {
        WaitStep(cfg, run.states[k - 1], run.acts[k - 1], run.states[k], c, t, b);
        if Evicts(cfg, run.states[k - 1], run.acts[k - 1], run.states[k], c, t, b) {
          assert EvictedBy(cfg, run, k, c, t, b);
        } else {
          WaitsInTime(cfg, run.states[k], c, t, b);
        }
      }
    }
  }

  lemma WaitStep(cfg: Config, s: State, a: Action, s': State, c: Conn, t: int, b: int)
    requires cfg.expire > BUCKETS && Allowed(cfg, s, a) && s' == Next(cfg, s, a) && Prompt(s, a) && LeavesAlone(a, c)
    requires WaitsAt(cfg, s, c, t, b) && Deadline(cfg, t) <= b
    ensures Evicts(cfg, s, a, s', c, t, b) || WaitsAt(cfg, s', c, t, b)
  {
    InvStep(cfg, s, a);
    StillTimed(cfg, s, a);
    WatchStep(cfg, s, a, c, t, b);
  }

  lemma WaitsInTime(cfg: Config, s: State, c: Conn, t: int, b: int)
    requires WaitsAt(cfg, s, c, t, b)
    ensures s.now < b
  {
  }

  /** The eviction window. A connection last touched at t and then idle, but for replies
      that go out, is in the map and not up for removal until a visit evicts it, and that
      visit comes no earlier than t + expire - spare and before t + expire + 9 * spare; the
      clock does not reach that bound without it. */
  lemma EvictionWindow(cfg: Config, run: Run, c: Conn, k: nat)
    requires cfg.expire > BUCKETS && QuietRun(cfg, run, c) && k < |run.states| && JustTouched(cfg, run.First(), c)
    ensures var t, s := run.First().now, run.states[k];
            || EvictedBy(cfg, run, k, c, t, Deadline(cfg, t))
            || (WaitsAt(cfg, s, c, t, Deadline(cfg, t)) && s.now < Deadline(cfg, t))
  {
    TouchedIsWatched(cfg, run.First(), c);
    WatchedIsEvicted(cfg, run, c, run.First().now, Deadline(cfg, run.First().now), k);
  }

  /** So by t + 2 * expire an idle connection is always gone or up for removal. */
  lemma EvictedWithinTwice(cfg: Config, run: Run, c: Conn, k: nat)
    requires cfg.expire > BUCKETS && QuietRun(cfg, run, c) && k < |run.states| && JustTouched(cfg, run.First(), c)
    requires run.states[k].now >= run.First().now + 2 * cfg.expire - 1
    ensures EvictedBy(cfg, run, k, c, run.First().now, Deadline(cfg, run.First().now))
  {
    EvictionWindow(cfg, run, c, k);
  }

  // ---- the window in a behaviour of the server ----

  ghost predicate PromptBehaviour(cfg: Config, run: Run) {
    IsRun(cfg, run) && Initial(cfg, run.First()) && forall k :: 0 <= k < |run.acts| ==> Prompt(run.states[k], run.acts[k])
  }

  lemma {:induction false} TimerAlways(cfg: Config, run: Run, k: nat)
    requires PromptBehaviour(cfg, run) && k < |run.states|
    ensures Inv(cfg, run.states[k]) && TimerOk(cfg, run.states[k])
  {
    if k == 0 {
      InvInitial(cfg, run.First());
    } else {
      TimerAlways(cfg, run, k - 1);
      InvStep(cfg, run.states[k - 1], run.acts[k - 1]);
      StillTimed(cfg, run.states[k - 1], run.acts[k - 1]);
    }
  }

  function Part(run: Run, i: nat, k: nat): Run
    requires i <= k < |run.states| == |run.acts| + 1
  {
    Run(run.states[i..k + 1], run.acts[i..k])
  }

  lemma PartIsQuiet(cfg: Config, run: Run, i: nat, k: nat, c: Conn)
    requires PromptBehaviour(cfg, run) && i <= k < |run.states|
    requires forall j :: i <= j < k ==> LeavesAlone(run.acts[j], c)
    ensures QuietRun(cfg, Part(run, i, k), c)
  {
    var part := Part(run, i, k);
    forall n | 0 <= n < |part.acts|
      ensures Prompt(part.states[n], part.acts[n]) && LeavesAlone(part.acts[n], c)
      ensures Allowed(cfg, part.states[n], part.acts[n]) && part.states[n + 1] == Next(cfg, part.states[n], part.acts[n])
    {
      assert part.acts[n] == run.acts[i + n] && part.states[n] == run.states[i + n] && part.states[n + 1] == run.states[i + n + 1];
    }
  }

  /** Between its states i and k the run has evicted c, touched at t, before b; or b is
      still to come. */
  ghost predicate EvictedBetween(cfg: Config, run: Run, i: nat, k: nat, c: Conn, t: int, b: int)
    requires i <= k < |run.states| == |run.acts| + 1
  {
    run.states[k].now < b
    || exists j :: i <= j < k && Evicts(cfg, run.states[j], run.acts[j], run.states[j + 1], c, t, b)
  }

  lemma EvictedInPart(cfg: Config, run: Run, i: nat, k: nat, c: Conn, t: int, b: int)
    requires cfg.expire > BUCKETS && PromptBehaviour(cfg, run) && i <= k < |run.states|
    requires forall j :: i <= j < k ==> LeavesAlone(run.acts[j], c)
    requires Inv(cfg, run.states[i]) && Watched(cfg, run.states[i], c, t, b) && Deadline(cfg, t) <= b
    ensures EvictedBetween(cfg, run, i, k, c, t, b)
  {
    hide Watched, Inv, TimerOk;
    TimerAlways(cfg, run, i);
    var part := Part(run, i, k);
    PartIsQuiet(cfg, run, i, k, c);
    WatchedIsEvicted(cfg, part, c, t, b, k - i);
    if EvictedBy(cfg, part, k - i, c, t, b) {
      var j :| 0 <= j < k - i && j < |part.acts| && j + 1 < |part.states|
               && Evicts(cfg, part.states[j], part.acts[j], part.states[j + 1], c, t, b);
      assert Evicts(cfg, run.states[i + j], run.acts[i + j], run.states[i + j + 1], c, t, b);
    }
  }

  /** In any behaviour of the server with a prompt timer: a connection of the map, not up
      for removal, that was touched at state i and is idle until state k has by then been
      evicted inside its window, or its window is not over. */
  lemma IdleIsEvicted(cfg: Config, run: Run, i: nat, k: nat, c: Conn)
    requires cfg.expire > BUCKETS && PromptBehaviour(cfg, run) && i <= k < |run.states|
    requires forall j :: i <= j < k ==> LeavesAlone(run.acts[j], c)
    requires var s := run.states[i];
             && c in s.front && c !in s.pending && c in s.conns
             && s.conns[c].stats.Working? && s.conns[c].touch == s.now
    ensures var t := run.states[i].now; EvictedBetween(cfg, run, i, k, c, t, Deadline(cfg, t))
  {
    TimerAlways(cfg, run, i);
    TouchedIsWatched(cfg, run.states[i], c);
    EvictedInPart(cfg, run, i, k, c, run.states[i].now, Deadline(cfg, run.states[i].now));
  }

  function Max(a: int, b: int): int { if a >= b then a else b }

  /** The window of a connection that was up for removal while working, touched at t: the
      pass of step i enrols it again, and from then on it is evicted before its deadline
      or, if that is later, one turn of the wheel after the pass. */
  lemma EnrolledIsEvicted(cfg: Config, run: Run, i: nat, k: nat, c: Conn)
    requires cfg.expire > BUCKETS && PromptBehaviour(cfg, run) && i < k < |run.states|
    requires forall j :: i < j < k ==> LeavesAlone(run.acts[j], c)
    requires var s := run.states[i]; run.acts[i].ManageRuns? && c in s.pending && c in s.conns && s.conns[c].stats.Working?
    ensures var s := run.states[i];
            var t := s.conns[c].touch;
            EvictedBetween(cfg, run, i + 1, k, c, t, Max(Deadline(cfg, t), s.now + BUCKETS * cfg.Spare() + 1))
  {
    var s, s' := run.states[i], run.states[i + 1];
    var t := s.conns[c].touch;
    var b := Max(Deadline(cfg, t), s.now + BUCKETS * cfg.Spare() + 1);
    TimerAlways(cfg, run, i);
    TimerAlways(cfg, run, i + 1);
    EnrolledIsWatched(cfg, s, run.acts[i], s', c, b);
    EvictedInPart(cfg, run, i + 1, k, c, t, b);
  }

  lemma EnrolledIsWatched(cfg: Config, s: State, a: Action, s': State, c: Conn, b: int)
    requires Inv(cfg, s) && TimerOk(cfg, s) && Allowed(cfg, s, a) && a.ManageRuns? && s' == Next(cfg, s, a)
    requires c in s.pending && s.conns[c].stats.Working? && s.now + BUCKETS * cfg.Spare() < b
    ensures |s'.wheel| == BUCKETS && Watched(cfg, s', c, s.conns[c].touch, b)
  {
    InvOrderly(cfg, s);
    PassSpec(cfg, s, a.order);
    PassConserves(cfg, s, a.order, c);
    assert s.conns[c].rOps == 1 && c in s'.wheel[BUCKETS - 1];
  }

  // ---- an active connection is not evicted ----

  /** A step in which c is started, served, or asked for more of its body. */
  predicate Touches(s: State, a: Action, c: Conn) {
    || a == ReadCompletes(c, Answered)
    || (a == ReadCompletes(c, NeedsBody) && c in s.conns && s.conns[c].stats.Working?)
    || (a.AcceptStarted? && s.accept == Emplaced(c))
  }

  ghost predicate TouchedBy(s: State, c: Conn, now: int) {
    c in s.conns && now <= s.conns[c].touch
  }

  // No touch time lies ahead of the clock.
  ghost predicate NoneAhead(s: State) {
    forall c :: c in s.conns ==> s.conns[c].touch <= s.now
  }

  // Touch times never go back.
  lemma TouchStep(cfg: Config, s: State, a: Action, t: State, c: Conn, now: int)
    requires Inv(cfg, s) && Allowed(cfg, s, a) && t == Next(cfg, s, a) && NoneAhead(s) && now <= s.now
    ensures NoneAhead(t) && s.now <= t.now
    ensures TouchedBy(s, c, now) ==> TouchedBy(t, c, now)
    ensures Touches(s, a, c) ==> TouchedBy(t, c, s.now)
  {
    hide Inv, ManagePass, Emplace;
    if a.ManageRuns? {
      ManageTouches(cfg, s, a, t, c, now);
    } else if a.AcceptEmplaced? {
      var _ := EmplaceResult(cfg, s, a.c);
    }
  }

  lemma ManageTouches(cfg: Config, s: State, a: Action, t: State, c: Conn, now: int)
    requires Inv(cfg, s) && Allowed(cfg, s, a) && t == Next(cfg, s, a) && a.ManageRuns? && NoneAhead(s)
    ensures NoneAhead(t) && t.now == s.now && (TouchedBy(s, c, now) ==> TouchedBy(t, c, now))
  {
    InvOrderly(cfg, s);
    PassSpec(cfg, s, a.order);
    hide Inv, Orderly, ManagePass, Thinned;
  }

  lemma {:induction false} ClockRuns(cfg: Config, run: Run, k: nat)
    requires IsRun(cfg, run) && Initial(cfg, run.First()) && k < |run.states|
    ensures Inv(cfg, run.states[k]) && NoneAhead(run.states[k])
  {
    if k == 0 {
      InvInitial(cfg, run.First());
    } else {
      ClockRuns(cfg, run, k - 1);
      InvStep(cfg, run.states[k - 1], run.acts[k - 1]);
      TouchStep(cfg, run.states[k - 1], run.acts[k - 1], run.states[k], 0, run.states[k - 1].now);
    }
  }

  lemma {:induction false} StaysTouched(cfg: Config, run: Run, i: nat, k: nat, c: Conn)
    requires IsRun(cfg, run) && Initial(cfg, run.First())
    requires i < k < |run.states| && Touches(run.states[i], run.acts[i], c)
    ensures TouchedBy(run.states[k], c, run.states[i].now) && run.states[i].now <= run.states[k].now
    decreases k
  {
    hide Inv, Touches, TouchedBy, NoneAhead, Next;
    var s, a, now := run.states[k - 1], run.acts[k - 1], run.states[i].now;
    ClockRuns(cfg, run, k - 1);
    if i < k - 1 { StaysTouched(cfg, run, i, k - 1, c); }
    TouchStep(cfg, s, a, run.states[k], c, now);
  }

  /** A visit that changes c or puts it up for removal. */
  predicate Hits(s: State, a: Action, t: State, c: Conn) {
    && a == WheelVisits(c) && c in s.conns && c in t.conns
    && (t.conns[c] != s.conns[c] || (c in t.pending && c !in s.pending))
  }

  /** The wheel never evicts early, in any run and with any timer: a visit that does
      anything to a connection comes at least expire - spare after each time it was
      started, served or asked for more. */
  lemma NeverEarly(cfg: Config, run: Run, i: nat, j: nat, c: Conn)
    requires IsRun(cfg, run) && Initial(cfg, run.First()) && i < j < |run.acts|
    requires Touches(run.states[i], run.acts[i], c) && Hits(run.states[j], run.acts[j], run.states[j + 1], c)
    ensures run.states[i].now + cfg.expire - cfg.Spare() <= run.states[j].now
  {
    StaysTouched(cfg, run, i, j, c);
    hide Touches, Initial, Inv;
  }
}
