/** Safety of the lifecycle over whole runs: what holds in every reachable state,
    whatever the interleaving of the actors. */
module Safety {
  import opened Lifecycle
  import opened Protocol
  import opened Recycling
  import opened Invariant

  ghost predicate Behaviour(cfg: Config, run: Run) {
    IsRun(cfg, run) && Initial(cfg, run.First())
  }

  lemma Reached(cfg: Config, run: Run, k: nat)
    requires Behaviour(cfg, run) && k < |run.states|
    ensures Inv(cfg, run.states[k])
  {
    InvInitial(cfg, run.First());
    InvRun(cfg, run, k);
  }

  /** No connection escapes supervision: in every reachable state, also in the middle of
      a wheel check, each member of front_conns_ waits for the manage thread or is in a
      bucket that no rotation is about to drop it from. */
  lemma NoEscape(cfg: Config, run: Run, k: nat, c: Conn)
    requires Behaviour(cfg, run) && k < |run.states| && c in run.states[k].front
    ensures var s := run.states[k];
            |s.wheel| == BUCKETS && (c in s.pending || InWheel(s, c))
  {
    Reached(cfg, run, k);
  }

  /** The counter is the size of the map and never passes the limit. */
  lemma CounterExact(cfg: Config, run: Run, k: nat)
    requires Behaviour(cfg, run) && k < |run.states|
    ensures run.states[k].cnt == |run.states[k].front| <= cfg.max
    ensures 10 * |run.states[k].cached| <= 3 * cfg.max + 9
  {
    Reached(cfg, run, k);
  }

  /** A working connection is being read, and no connection is ever read twice. */
  lemma WorkingIsRead(cfg: Config, run: Run, k: nat, c: Conn)
    requires Behaviour(cfg, run) && k < |run.states| && c in run.states[k].conns
    ensures var l := run.states[k].conns[c]; l.rOps <= 1 && (l.stats.Working? ==> l.rOps == 1)
  {
    Reached(cfg, run, k);
  }

  /** Every object ever made is in the map, or once in the cache and referenced by
      nothing else, or referenced by nothing; and never two of these. */
  lemma OwnershipPartition(cfg: Config, run: Run, k: nat, c: Conn)
    requires Behaviour(cfg, run) && k < |run.states| && c in run.states[k].conns
    ensures var s := run.states[k];
            && (c in s.front ==> c !in s.cached && UseCount(s, c) >= 1)
            && (c in s.cached ==> UseCount(s, c) == 1)
            && (c !in s.front && c !in s.cached ==> UseCount(s, c) == 0)
  {
    Reached(cfg, run, k);
    var s := run.states[k];
    if c in s.cached { DistinctOnce(s.cached, c); } else { assert c !in multiset(s.cached); }
  }

  /** A manage pass takes a connection out of the map exactly when no read, no write
      and no accept frame holds it. */
  lemma RecyclesOnlyQuiescent(cfg: Config, run: Run, k: nat, c: Conn)
    requires Behaviour(cfg, run) && k < |run.acts| && run.acts[k].ManageRuns? && c in run.states[k].pending
    ensures c in run.states[k].conns
    ensures c !in run.states[k + 1].front <==> Quiescent(run.states[k], c)
  {
    Reached(cfg, run, k);
    InvOrderly(cfg, run.states[k]);
    PassConserves(cfg, run.states[k], run.acts[k].order, c);
  }

  /** A reused object comes with no operation of its former client outstanding, is
      referenced by nobody, and starts as a newly made one does. */
  lemma ReuseIsClean(cfg: Config, run: Run, k: nat)
    requires Behaviour(cfg, run) && k < |run.acts| && run.acts[k].AcceptEmplaced?
    ensures var s, t, c := run.states[k], run.states[k + 1], run.acts[k].c;
            && (if s.cached == [] then c !in s.conns
                else c == s.cached[0] && c in s.conns && UseCount(s, c) == 1 && Quiescent(s, c))
            && c !in s.front && c !in s.pending && c !in t.cached
            && t.conns == s.conns[c := Life(Pending, 0, 0, s.now)] && !t.aborted
  {
    Reached(cfg, run, k);
    var s := run.states[k];
    if s.cached != [] { OnceCached(cfg, s); assert s.cached[0] in multiset(s.cached); }
    var _ := EmplaceResult(cfg, s, run.acts[k].c);
    InvStep(cfg, s, run.acts[k]);
  }

  /** The program's assertions: only the wheel's can fail, and it fails exactly when the
      visited entry is that of the connection emplaced but not yet started. */
  lemma OnlyTheWheelAssertionFails(cfg: Config, run: Run, k: nat)
    requires Behaviour(cfg, run) && k < |run.acts|
    ensures run.states[k + 1].aborted <==>
              run.acts[k].WheelVisits? && run.states[k].accept == Emplaced(run.acts[k].c)
  {
    Reached(cfg, run, k);
    InvStep(cfg, run.states[k], run.acts[k]);
  }

  /** Were the locked section and start() one step, no assertion would ever fail. */
  lemma {:induction false} FusedAcceptNeverAborts(cfg: Config, run: Run, k: nat)
    requires Behaviour(cfg, run) && k < |run.states|
    requires forall j :: 0 <= j < |run.acts| && run.states[j].accept.Emplaced? ==> run.acts[j].AcceptStarted?
    ensures !run.states[k].aborted
  {
    if k > 0 { OnlyTheWheelAssertionFails(cfg, run, k - 1); }
  }

  // ---- the failing run ----

  lemma Then(cfg: Config, run: Run, a: Action) returns (r: Run)
    requires IsRun(cfg, run) && Allowed(cfg, run.Last(), a)
    ensures IsRun(cfg, r) && r.First() == run.First() && r.Last() == Next(cfg, run.Last(), a)
  {
    hide Next, Enabled;
    r := Run(run.states + [Next(cfg, run.Last(), a)], run.acts + [a]);
  }

  function OnlyIn(j: nat, c: Conn): seq<set<Conn>> {
    seq(BUCKETS, i => if i == j then {c} else {})
  }

  lemma {:induction false} RotateDown(cfg: Config, run: Run, j: nat, c: Conn) returns (r: Run)
    requires IsRun(cfg, run) && j < BUCKETS && run.Last().wheel == OnlyIn(j, c)
    requires Shaped(run.Last()) && !run.Last().aborted && run.Last().scan.Idle?
    ensures IsRun(cfg, r) && r.First() == run.First() && r.Last().wheel == OnlyIn(0, c)
    ensures r.Last() == run.Last().(wheel := r.Last().wheel, now := r.Last().now, due := r.Last().due,
                                    ticks := r.Last().ticks)
    decreases j
  {
    r := run;
    if j > 0 {
      r := Then(cfg, r, ClockTicks(if r.Last().now < r.Last().due then r.Last().due - r.Last().now else 0));
      r := Then(cfg, r, WheelCopies);
      r := Then(cfg, r, WheelPushes);
      assert run.Last().wheel[1..] + [{}] == OnlyIn(j - 1, c);
      r := RotateDown(cfg, r, j - 1, c);
    }
  }

  // One client is accepted, and its accept handler has returned.
  lemma FirstClient(cfg: Config) returns (r: Run)
    requires cfg.max >= 1
    ensures Behaviour(cfg, r)
    ensures var s := r.Last();
            s.wheel == OnlyIn(BUCKETS - 1, 0) && s.cached == [] && s.front == {0} && s.pending == {} && s.cnt == 1
            && s.conns == map[0 := Life(Working, 1, 0, 0)]
            && s.held[0] == 0 && s.accept.Listening? && s.scan.Idle? && !s.aborted
  {
    var s0 := State(map[], {}, 0, [], {}, seq(BUCKETS, i => {}), multiset{}, Listening, Idle, 0, cfg.Spare(), 0, false);
    r := Run([s0], []);
    r := Then(cfg, r, AcceptChecked);
    r := Then(cfg, r, AcceptEmplaced(0));
    assert s0.wheel[BUCKETS - 1] + {0} == {0};
    assert r.Last().wheel == OnlyIn(BUCKETS - 1, 0);
    r := Then(cfg, r, AcceptStarted);
    r := Then(cfg, r, AcceptAgain);
    r := Then(cfg, r, FrameReturns(0));
  }

  // Nobody is connected; object 0 is cached, and its old entry is in bucket j.
  ghost predicate Leftover(s: State, j: nat) {
    && s.wheel == OnlyIn(j, 0) && s.cached == [0] && s.front == {} && s.pending == {} && s.cnt == 0
    && s.conns.Keys == {0} && s.conns[0].stats.Pending? && s.conns[0].rOps == s.conns[0].wOps == 0
    && s.held[0] == 0 && s.scan.Idle? && !s.aborted
  }

  // The client goes away and is recycled ...
  lemma ClientGone(cfg: Config) returns (r: Run)
    requires cfg.max >= 1
    ensures Behaviour(cfg, r) && Leftover(r.Last(), BUCKETS - 1) && r.Last().accept.Listening?
  {
    r := FirstClient(cfg);
    r := Then(cfg, r, ReadCompletes(0, ReadFailed));
    assert Elems([0]) == {0};
    OneRemoved(cfg, r.Last());
    r := Then(cfg, r, ManageRuns([0]));
  }

  lemma OneRemoved(cfg: Config, s: State)
    requires cfg.max >= 1 && Allowed(cfg, s, ManageRuns([0]))
    requires s.wheel == OnlyIn(BUCKETS - 1, 0) && s.cached == [] && s.front == {0} && s.pending == {0} && s.cnt == 1
    requires s.conns == map[0 := Life(Error, 0, 0, 0)] && s.held[0] == 0 && s.scan.Idle?
    ensures var t := Next(cfg, s, ManageRuns([0])); Leftover(t, BUCKETS - 1) && t.accept == s.accept
  {
    assert [0][..0] == [] && Elems([0][..0]) == {};
    assert ManageItems(cfg, s, [0]) == ManageItem(cfg, s, 0);
  }

  // ... and nine rotations later its stale entry is in bucket 0, when the next client comes.
  lemma StaleEntry(cfg: Config) returns (r: Run)
    requires cfg.max >= 1
    ensures Behaviour(cfg, r) && Leftover(r.Last(), 0) && r.Last().accept.Checked? && r.Last().now >= r.Last().due
  {
    r := ClientGone(cfg);
    r := RotateDown(cfg, r, BUCKETS - 1, 0);
    r := Then(cfg, r, ClockTicks(if r.Last().now < r.Last().due then r.Last().due - r.Last().now else 0));
    r := Then(cfg, r, AcceptChecked);
  }

  /** As written, with the section and start() apart, the wheel's assertion can fail:
      whatever the configuration, a run exists that reuses a cached object and visits the
      entry of its earlier life before starting it. */
  lemma AcceptRaceAborts(cfg: Config) returns (r: Run)
    requires cfg.max >= 1
    ensures Behaviour(cfg, r) && r.Last().aborted
  {
    r := StaleEntry(cfg);
    assert 0 in multiset([0]) && multiset([0])[0] == 1;
    r := Then(cfg, r, AcceptEmplaced(0));
    r := Then(cfg, r, WheelCopies);
    r := Then(cfg, r, WheelVisits(0));
  }
}
