/** The invariant of the connection lifecycle, kept by every step of every actor, and
    what it gives in every state of every run. */
module Invariant {
  import opened Lifecycle
  import opened Protocol
  import opened Recycling

  /** Front, cache and removal list: pending within front, cache disjoint from front. */
  ghost predicate Owned(s: State) {
    && s.front <= s.conns.Keys && s.pending <= s.front
    && (forall c :: c in s.cached ==> c in s.conns && c !in s.front)
    && Distinct(s.cached)
    && (forall c :: c in s.held ==> c in s.conns)
  }

  ghost predicate Counted(cfg: Config, s: State) {
    && s.cnt == |s.front| <= cfg.max
    && (s.accept.Checked? ==> s.cnt < cfg.max)
    && |s.cached| <= cfg.CacheCap()
  }

  /** One object: at most one read, exactly one while working; whoever still holds it
      keeps it in the map; only a cached or a not yet started object is pending. */
  ghost predicate LifeOk(s: State, c: Conn)
    requires c in s.conns
  {
    var l := s.conns[c];
    && l.rOps <= 1
    && (l.stats.Working? ==> l.rOps == 1)
    && (l.rOps + l.wOps + s.held[c] > 0 ==> c in s.front)
    && (c in s.cached ==> l.stats.Pending?)
    && (c in s.front && l.stats.Pending? ==> s.accept == Emplaced(c))
  }

  /** The frame of the running accept handler holds the object it has emplaced. */
  ghost predicate AcceptOk(s: State) {
    && (s.accept.Emplaced? ==>
          var c := s.accept.c;
          && c in s.front && c in s.conns && c !in s.pending && s.held[c] >= 1
          && s.conns[c].stats.Pending? && s.conns[c].rOps == 0 && s.conns[c].wOps == 0)
    && (s.accept.Started? ==> s.held[s.accept.c] >= 1)
  }

  ghost predicate WheelOk(s: State) {
    && |s.wheel| == BUCKETS
    && (forall i, c :: 0 <= i < BUCKETS && c in s.wheel[i] ==> c in s.conns)
    && (s.scan.Scanning? ==> s.scan.toVisit <= s.scan.modi <= s.wheel[0])
  }

  /** What the next rotation keeps of bucket 0. */
  function Survivors(s: State): set<Conn>
    requires |s.wheel| == BUCKETS
  {
    if s.scan.Scanning? then s.scan.modi else s.wheel[0]
  }

  ghost predicate InWheel(s: State, c: Conn)
    requires |s.wheel| == BUCKETS
  {
    c in Survivors(s) || exists i :: 1 <= i < BUCKETS && c in s.wheel[i]
  }

  /** No connection escapes supervision. */
  ghost predicate Supervised(s: State)
    requires |s.wheel| == BUCKETS
  {
    forall c :: c in s.front ==> c in s.pending || InWheel(s, c)
  }

  ghost predicate Inv(cfg: Config, s: State) {
    Owned(s) && Counted(cfg, s) && (forall c :: c in s.conns ==> LifeOk(s, c)) && AcceptOk(s)
    && WheelOk(s) && Supervised(s)
  }

  lemma InvInitial(cfg: Config, s: State)
    requires Initial(cfg, s)
    ensures Inv(cfg, s)
  {
  }

  lemma InvOrderly(cfg: Config, s: State)
    requires Inv(cfg, s) && !s.aborted
    ensures Orderly(cfg, s)
  {
  }

  lemma OnceCached(cfg: Config, s: State)
    requires Inv(cfg, s) && s.cached != []
    ensures UseCount(s, s.cached[0]) == 1
  {
    DistinctOnce(s.cached, s.cached[0]);
  }

  lemma EnrolKeeps(s: State, wheel: seq<set<Conn>>, c: Conn)
    requires |s.wheel| == BUCKETS && wheel == Enrol(s.wheel, c)
    ensures forall d :: InWheel(s, d) ==> InWheel(s.(wheel := wheel), d)
    ensures InWheel(s.(wheel := wheel), c)
  {
    assert c in wheel[BUCKETS - 1];
    forall d | InWheel(s, d) ensures InWheel(s.(wheel := wheel), d) {
      if d !in Survivors(s) {
        var i :| 1 <= i < BUCKETS && d in s.wheel[i];
        assert d in wheel[i];
      }
    }
  }

  // The reuse assertion holds, so the section runs to its end.
  lemma EmplaceResult(cfg: Config, s: State, c: Conn) returns (t: State)
    requires Inv(cfg, s) && Allowed(cfg, s, AcceptEmplaced(c))
    ensures t == Next(cfg, s, AcceptEmplaced(c))
    ensures c !in s.front && c !in t.cached && c !in s.pending && s.held[c] == 0
    ensures t == s.(conns := t.conns, cached := t.cached, front := s.front + {c}, cnt := s.cnt + 1,
                    wheel := Enrol(s.wheel, c), held := s.held[c := 1], accept := Emplaced(c))
    ensures t.conns == s.conns[c := Life(Pending, 0, 0, s.now)]
    ensures t.cached == if s.cached == [] then [] else s.cached[1..]
  {
    if s.cached != [] { OnceCached(cfg, s); }
    t := Taken(s, c);
  }

  lemma EmplaceOwned(cfg: Config, s: State, c: Conn, t: State)
    requires Owned(s) && Counted(cfg, s) && s.accept.Checked? && c !in s.front && c !in t.cached && c !in s.pending
    requires t.conns == s.conns[c := Life(Pending, 0, 0, s.now)] && t.accept == Emplaced(c)
    requires t.cached == if s.cached == [] then [] else s.cached[1..]
    requires t.front == s.front + {c} && t.cnt == s.cnt + 1 && t.held == s.held[c := 1] && t.pending == s.pending
    ensures Owned(t) && Counted(cfg, t) && AcceptOk(t)
  {
    assert forall d :: d in t.cached ==> d in s.cached && d != c;
  }

  lemma EmplaceLives(s: State, c: Conn, t: State)
    requires forall d :: d in s.conns ==> LifeOk(s, d)
    requires Owned(s) && s.accept.Checked? && c !in s.front && c !in t.cached
    requires t.conns == s.conns[c := Life(Pending, 0, 0, s.now)] && t.accept == Emplaced(c)
    requires t.cached == if s.cached == [] then [] else s.cached[1..]
    requires t.front == s.front + {c} && t.held == s.held[c := 1]
    ensures forall d :: d in t.conns ==> LifeOk(t, d)
  {
    forall d | d in t.conns ensures LifeOk(t, d) {
      if d != c { assert LifeOk(s, d); assert d in t.cached ==> d in s.cached; }
    }
  }

  lemma KeepEmplace(cfg: Config, s: State, c: Conn)
    requires Inv(cfg, s) && Allowed(cfg, s, AcceptEmplaced(c))
    ensures var t := Next(cfg, s, AcceptEmplaced(c)); Inv(cfg, t) && !t.aborted
  {
    var t := EmplaceResult(cfg, s, c);
    EmplaceOwned(cfg, s, c, t);
    EmplaceLives(s, c, t);
    EnrolKeeps(s, t.wheel, c);
    assert forall d :: InWheel(s.(wheel := t.wheel), d) ==> InWheel(t, d);
  }

  lemma KeepHandler(cfg: Config, s: State, a: Action)
    requires Inv(cfg, s) && Allowed(cfg, s, a) && (a.ReadCompletes? || a.WriteCompletes?)
    ensures var t := Next(cfg, s, a); Inv(cfg, t) && !t.aborted
  {
    var t := Next(cfg, s, a);
    assert forall d :: InWheel(s, d) ==> InWheel(t, d);
  }

  lemma KeepAccept(cfg: Config, s: State, a: Action)
    requires Inv(cfg, s) && Allowed(cfg, s, a)
    requires a.AcceptFails? || a.AcceptRefused? || a.AcceptChecked? || a.AcceptStarted? || a.AcceptAgain?
          || a.FrameReturns? || a.ClockTicks?
    ensures var t := Next(cfg, s, a); Inv(cfg, t) && !t.aborted
  {
    var t := Next(cfg, s, a);
    assert forall d :: InWheel(s, d) ==> InWheel(t, d);
  }

  lemma KeepVisit(cfg: Config, s: State, c: Conn)
    requires Inv(cfg, s) && Allowed(cfg, s, WheelVisits(c))
    ensures var t := Next(cfg, s, WheelVisits(c)); Inv(cfg, t) && (t.aborted <==> s.accept == Emplaced(c))
  {
    hide Supervised, WheelOk, Counted;
    var t := Visit(cfg, s, c);
    assert c in multiset(s.cached) <==> c in s.cached;
    assert LifeOk(s, c);
    if UseCount(s, c) == 0 {
      VisitDrops(cfg, s, c, t);
    } else if s.conns[c].stats.Pending? {
      if c in s.cached { VisitDrops(cfg, s, c, t); } else { Aborts(cfg, s, t); }
    } else if Expired(cfg, s.conns[c].touch, s.now) {
      VisitEvicts(cfg, s, c, t);
    } else {
      VisitPasses(cfg, s, c, t);
    }
  }

  lemma Aborts(cfg: Config, s: State, t: State)
    requires Inv(cfg, s) && t == s.(aborted := true)
    ensures Inv(cfg, t)
  {
    assert forall d :: InWheel(s, d) ==> InWheel(t, d);
  }

  lemma VisitDrops(cfg: Config, s: State, c: Conn, t: State)
    requires Inv(cfg, s) && s.scan.Scanning? && c in s.conns && c !in s.front
    requires t == s.(scan := Scanning(s.scan.modi - {c}, s.scan.toVisit - {c}))
    ensures Inv(cfg, t)
  {
    assert forall d :: d != c && InWheel(s, d) ==> InWheel(t, d);
  }

  lemma VisitEvicts(cfg: Config, s: State, c: Conn, t: State)
    requires Inv(cfg, s) && s.scan.Scanning? && c in s.conns && c in s.front && !s.conns[c].stats.Pending?
    requires t == s.(scan := Scanning(s.scan.modi - {c}, s.scan.toVisit - {c}),
                     conns := s.conns[c := s.conns[c].(stats := Error)], pending := s.pending + {c})
    ensures Inv(cfg, t)
  {
    assert forall d :: d != c && InWheel(s, d) ==> InWheel(t, d);
  }

  lemma VisitPasses(cfg: Config, s: State, c: Conn, t: State)
    requires Inv(cfg, s) && s.scan.Scanning? && c in s.scan.toVisit
    requires t == s.(scan := Scanning(s.scan.modi, s.scan.toVisit - {c}))
    ensures Inv(cfg, t)
  {
    assert forall d :: InWheel(s, d) ==> InWheel(t, d);
  }

  lemma KeepRotation(cfg: Config, s: State, a: Action)
    requires Inv(cfg, s) && Allowed(cfg, s, a) && (a.WheelCopies? || a.WheelPushes?)
    ensures var t := Next(cfg, s, a); Inv(cfg, t) && !t.aborted
  {
    var t := Next(cfg, s, a);
    forall d | InWheel(s, d) ensures InWheel(t, d) {
      if a.WheelPushes? {
        if d in Survivors(s) {
          assert d in t.wheel[BUCKETS - 1];
        } else {
          var i :| 1 <= i < BUCKETS && d in s.wheel[i];
          assert d in t.wheel[i - 1];
        }
      }
    }
  }

  lemma ManageOwned(cfg: Config, s: State, t: State)
    requires Owned(s) && Counted(cfg, s) && AcceptOk(s) && Shaped(s)
    requires Swept(cfg, s, s.pending, t) && t.pending == {} && t.cnt == |t.front|
    ensures Owned(t) && Counted(cfg, t) && AcceptOk(t)
    ensures forall c :: c in t.cached && c !in s.cached ==> c in s.pending && Quiescent(s, c)
  {
    forall c | c in t.cached
      ensures c in s.conns && c !in t.front
      ensures c !in s.cached ==> c in s.pending && Quiescent(s, c)
    {
      var i :| 0 <= i < |t.cached| && t.cached[i] == c;
      if i < |s.cached| { assert c in s.cached; }
    }
  }

  lemma ManageLives(cfg: Config, s: State, t: State, c: Conn)
    requires Owned(s) && Shaped(s) && Swept(cfg, s, s.pending, t) && c in s.conns && LifeOk(s, c)
    requires forall d :: d in t.cached && d !in s.cached ==> d in s.pending && Quiescent(s, d)
    ensures LifeOk(t, c)
  {
    assert c in s.cached ==> c in t.cached;
  }

  lemma ManageSupervised(cfg: Config, s: State, t: State)
    requires Inv(cfg, s) && Orderly(cfg, s) && Swept(cfg, s, s.pending, t) && t.pending == {}
    ensures WheelOk(t) && Supervised(t)
  {
    forall d | d in t.front ensures InWheel(t, d) {
      if d in s.pending {
        assert d in t.wheel[BUCKETS - 1];
      } else if d !in Survivors(s) {
        var i :| 1 <= i < BUCKETS && d in s.wheel[i];
        assert d in t.wheel[i];
      }
    }
  }

  lemma KeepManage(cfg: Config, s: State, order: seq<Conn>)
    requires Inv(cfg, s) && Allowed(cfg, s, ManageRuns(order))
    ensures var t := Next(cfg, s, ManageRuns(order)); Inv(cfg, t) && !t.aborted
  {
    InvOrderly(cfg, s);
    PassSpec(cfg, s, order);
    var t := Next(cfg, s, ManageRuns(order));
    ManageOwned(cfg, s, t);
    forall c | c in t.conns ensures LifeOk(t, c) { ManageLives(cfg, s, t, c); }
    ManageSupervised(cfg, s, t);
  }

  /** Every step keeps the invariant, and no assertion of the program fails in it except
      one: the wheel's, and that exactly when it visits the connection which the accept
      handler has emplaced and not yet started. */
  lemma InvStep(cfg: Config, s: State, a: Action)
    requires Inv(cfg, s) && Allowed(cfg, s, a)
    ensures Inv(cfg, Next(cfg, s, a))
    ensures Next(cfg, s, a).aborted <==> a.WheelVisits? && s.accept == Emplaced(a.c)
  {
    match a
    case AcceptEmplaced(c) => KeepEmplace(cfg, s, c);
    case ReadCompletes(_, _) => KeepHandler(cfg, s, a);
    case WriteCompletes(_, _) => KeepHandler(cfg, s, a);
    case WheelCopies => KeepRotation(cfg, s, a);
    case WheelVisits(c) => KeepVisit(cfg, s, c);
    case WheelPushes => KeepRotation(cfg, s, a);
    case ManageRuns(order) => KeepManage(cfg, s, order);
    case _ => KeepAccept(cfg, s, a);
  }

  lemma {:induction false} InvRun(cfg: Config, run: Run, k: nat)
    requires IsRun(cfg, run) && Inv(cfg, run.First()) && k < |run.states|
    ensures Inv(cfg, run.states[k])
  {
    if k > 0 {
      InvRun(cfg, run, k - 1);
      InvStep(cfg, run.states[k - 1], run.acts[k - 1]);
    }
  }
}
