/** The server object, its accept handler, the wheel check and the manage pass, written
    as the loops and updates they are and proved to take steps of the protocol. The
    object carries the history of the whole system as a run of the protocol. Wherever a
    thread holds no lock the others may run: `Interference` stands for any number of
    their steps. */
module Server {
  import opened Lifecycle
  import opened Protocol
  import opened Recycling
  import opened Invariant
  import opened Safety
  import opened Wheel

  predicate OfAccept(a: Action) {
    a.AcceptFails? || a.AcceptRefused? || a.AcceptChecked? || a.AcceptEmplaced? || a.AcceptStarted? || a.AcceptAgain?
  }

  /** r continues run, by steps that are not `mine`. */
  ghost predicate Continues(run: Run, r: Run, mine: Action -> bool) {
    && |run.states| == |run.acts| + 1 && run.states <= r.states && run.acts <= r.acts
    && forall k :: |run.acts| <= k < |r.acts| ==> !mine(r.acts[k])
  }

  /** What the accept chain itself did. */
  ghost function AcceptSteps(acts: seq<Action>): seq<Action> {
    if acts == [] then [] else
    var n := |acts| - 1;
    AcceptSteps(acts[..n]) + if OfAccept(acts[n]) then [acts[n]] else []
  }

  lemma {:induction false} OthersTakeNoAcceptStep(run: Run, r: Run, n: nat)
    requires Continues(run, r, OfAccept) && |run.acts| <= n <= |r.acts|
    ensures AcceptSteps(r.acts[..n]) == AcceptSteps(run.acts)
  {
    if n > |run.acts| {
      OthersTakeNoAcceptStep(run, r, n - 1);
      assert r.acts[..n][..n - 1] == r.acts[..n - 1];
    } else {
      assert r.acts[..n] == run.acts;
    }
  }

  lemma OneAcceptStep(acts: seq<Action>, a: Action)
    ensures AcceptSteps(acts + [a]) == AcceptSteps(acts) + if OfAccept(a) then [a] else []
  {
    assert (acts + [a])[..|acts|] == acts;
  }

  lemma Recorded(cfg: Config, run: Run, a: Action, t: State)
    requires Behaviour(cfg, run) && Allowed(cfg, run.Last(), a) && t == Next(cfg, run.Last(), a)
    ensures Behaviour(cfg, Run(run.states + [t], run.acts + [a]))
  {
  }

  // While only the others run, the wheel's check and bucket 0 stand still.
  lemma {:induction false} WheelUndisturbed(cfg: Config, run: Run, r: Run, k: nat)
    requires Behaviour(cfg, r) && Continues(run, r, OfWheel) && |run.acts| <= k < |r.states| && !run.Last().aborted
    ensures var s, t := run.Last(), r.states[k];
            && !t.aborted && t.scan == s.scan && t.ticks == s.ticks && |s.wheel| == |t.wheel| == BUCKETS
            && t.wheel[0] == s.wheel[0]
  {
    hide Inv;
    if k > |run.acts| {
      WheelUndisturbed(cfg, run, r, k - 1);
      UndisturbedStep(cfg, r, k - 1);
    } else {
      WheelSize(cfg, r, k);
    }
  }

  lemma WheelSize(cfg: Config, r: Run, k: nat)
    requires Behaviour(cfg, r) && k < |r.states|
    ensures |r.states[k].wheel| == BUCKETS
  {
    Reached(cfg, r, k);
  }

  lemma UndisturbedStep(cfg: Config, r: Run, k: nat)
    requires Behaviour(cfg, r) && k < |r.acts| && !OfWheel(r.acts[k])
    ensures var s, t := r.states[k], r.states[k + 1];
            && |s.wheel| == |t.wheel| == BUCKETS && t.wheel[0] == s.wheel[0]
            && !t.aborted && t.scan == s.scan && t.ticks == s.ticks
  {
    Reached(cfg, r, k);
    InvStep(cfg, r.states[k], r.acts[k]);
    OthersOnWheel(cfg, r.states[k], r.acts[k]);
  }

  lemma {:induction false} AcceptUndisturbed(cfg: Config, run: Run, r: Run, k: nat)
    requires Behaviour(cfg, r) && Continues(run, r, OfAccept) && |run.acts| <= k < |r.states|
    ensures r.states[k].accept == run.Last().accept
  {
    hide Inv;
    if k > |run.acts| {
      AcceptUndisturbed(cfg, run, r, k - 1);
      Reached(cfg, r, k - 1);
      OthersKeepAccept(cfg, r.states[k - 1], r.acts[k - 1], r.states[k]);
    }
  }

  lemma OthersKeepAccept(cfg: Config, s: State, a: Action, t: State)
    requires Inv(cfg, s) && Allowed(cfg, s, a) && t == Next(cfg, s, a) && !OfAccept(a)
    ensures t.accept == s.accept
  {
    if a.ManageRuns? {
      InvOrderly(cfg, s);
      PassSpec(cfg, s, a.order);
    }
  }

  // What the locked section finds.
  lemma SectionReady(cfg: Config, run: Run)
    requires Behaviour(cfg, run) && run.Last().accept.Checked?
    ensures var s := run.Last();
            Shaped(s) && (s.cached != [] ==> s.cached[0] in s.conns && UseCount(s, s.cached[0]) == 1)
  {
    Reached(cfg, run, |run.states| - 1);
    if run.Last().cached != [] { OnceCached(cfg, run.Last()); }
  }

  lemma StartReady(cfg: Config, run: Run)
    requires Behaviour(cfg, run) && run.Last().accept.Emplaced?
    ensures Shaped(run.Last()) && run.Last().accept.c in run.Last().conns
  {
    Reached(cfg, run, |run.states| - 1);
  }

  lemma VisitReady(cfg: Config, run: Run)
    requires Behaviour(cfg, run)
    ensures var s := run.Last();
            && Shaped(s)
            && (s.scan.Scanning? ==> forall c :: c in s.scan.toVisit ==> c in s.conns)
  {
    Reached(cfg, run, |run.states| - 1);
  }

  lemma PassReady(cfg: Config, run: Run)
    requires Behaviour(cfg, run) && !run.Last().aborted
    ensures Orderly(cfg, run.Last())
  {
    Reached(cfg, run, |run.states| - 1);
    InvOrderly(cfg, run.Last());
  }

  /** A visit that puts its connection up for removal. */
  predicate Evicting(cfg: Config, s: State, a: Action) {
    && a.WheelVisits? && a.c in s.conns && UseCount(s, a.c) > 0
    && !s.conns[a.c].stats.Pending? && Expired(cfg, s.conns[a.c].touch, s.now)
  }

  /** Some step of the run from its n-th on is such a visit. */
  ghost predicate AnyEviction(cfg: Config, run: Run, n: nat) {
    exists k :: n <= k < |run.acts| && k < |run.states| && Evicting(cfg, run.states[k], run.acts[k])
  }

  lemma NoOtherEviction(cfg: Config, run: Run, r: Run, n: nat)
    requires Continues(run, r, OfWheel) && n <= |run.acts|
    ensures AnyEviction(cfg, run, n) <==> AnyEviction(cfg, r, n)
  {
    if k :| n <= k < |run.acts| && Evicting(cfg, run.states[k], run.acts[k]) {
      assert r.acts[k] == run.acts[k] && r.states[k] == run.states[k];
    }
    if k :| n <= k < |r.acts| && k < |r.states| && Evicting(cfg, r.states[k], r.acts[k]) {
      assert OfWheel(r.acts[k]) && k < |run.acts|;
      assert r.acts[k] == run.acts[k] && r.states[k] == run.states[k];
    }
  }

  lemma OneMore(cfg: Config, run: Run, a: Action, t: State, n: nat)
    requires |run.states| == |run.acts| + 1 && n <= |run.acts|
    ensures AnyEviction(cfg, Run(run.states + [t], run.acts + [a]), n)
            <==> AnyEviction(cfg, run, n) || Evicting(cfg, run.Last(), a)
  {
    var r := Run(run.states + [t], run.acts + [a]);
    if k :| n <= k < |run.acts| && Evicting(cfg, run.states[k], run.acts[k]) {
      assert r.acts[k] == run.acts[k] && r.states[k] == run.states[k];
    }
    if Evicting(cfg, run.Last(), a) {
      assert r.acts[|run.acts|] == a && r.states[|run.acts|] == run.Last();
    }
  }

  class HttpServer {
    const cfg: Config
    var objects: map<Conn, Life>
    var frontConns: map<Conn, nat>
    var currentConnsCnt: int
    var cachedConns: seq<Conn>
    var pendingToRemove: set<Conn>
    var timingWheel: seq<set<Conn>>
    var held: multiset<Conn>
    var accept: AcceptPhase
    var scan: Scan
    var now: int
    var due: int
    var ticks: nat
    var aborted: bool
    ghost var history: Run

    function Abs(): State
      reads this
    {
      State(objects, frontConns.Keys, currentConnsCnt, cachedConns, pendingToRemove, timingWheel, held, accept, scan,
            now, due, ticks, aborted)
    }

    /** The history is a run of the protocol from the start of the server to now. */
    ghost predicate Valid()
      reads this
    {
      Behaviour(cfg, history) && history.Last() == Abs()
    }

    /** The constructor and the filling of the wheel in `run`. */
    constructor (cfg: Config, now: int)
      ensures Valid() && this.cfg == cfg && this.now == now && Initial(cfg, Abs())
    {
      this.cfg := cfg;
      objects, frontConns, currentConnsCnt, cachedConns, pendingToRemove := map[], map[], 0, [], {};
      timingWheel := [];
      held, accept, scan, this.now, ticks, aborted := multiset{}, Listening, Idle, now, 0, false;
      due := now + cfg.Spare();
      new;
      for i := 0 to BUCKETS
        invariant timingWheel == seq(i, k => {}) && this.now == now && due == now + cfg.Spare()
        invariant Abs() == State(map[], {}, 0, [], {}, timingWheel, multiset{}, Listening, Idle, now, due, 0, false)
      {
        timingWheel := timingWheel + [{}];
      }
      history := Run([Abs()], []);
    }

    ghost method Record(a: Action)
      requires Behaviour(cfg, history) && Allowed(cfg, history.Last(), a) && Abs() == Next(cfg, history.Last(), a)
      modifies this`history
      ensures Valid() && history == Run(old(history).states + [Abs()], old(history).acts + [a])
    {
      Recorded(cfg, history, a, Abs());
      history := Run(history.states + [Abs()], history.acts + [a]);
    }

    /** Steps of the other actors, any number of them. */
    method Interference(ghost mine: Action -> bool)
      requires Valid()
      modifies this
      ensures Valid() && Continues(old(history), history, mine)
    {
    }

    method OthersDuringAccept()
      requires Valid()
      modifies this
      ensures Valid() && accept == old(accept) && AcceptSteps(history.acts) == AcceptSteps(old(history).acts)
    {
      Interference(OfAccept);
      OthersTakeNoAcceptStep(old(history), history, |history.acts|);
      assert history.acts[..|history.acts|] == history.acts;
      AcceptUndisturbed(cfg, old(history), history, |history.acts|);
    }

    /** accept_handler: refuses at the limit, else takes or makes an object, enrols and
        starts it, and listens again, with the others running in between. */
    method AcceptHandler(ec: bool)
      requires Valid() && !aborted && accept.Listening?
      modifies this
      ensures Valid()
      ensures ec ==> Abs() == old(Abs()).(accept := Stopped)
      ensures !ec && old(currentConnsCnt) >= cfg.max ==> Abs() == old(Abs())
      ensures !ec && old(currentConnsCnt) < cfg.max && !aborted ==> accept.Listening? && exists c ::
        AcceptSteps(history.acts) == AcceptSteps(old(history).acts)
                                     + [AcceptChecked, AcceptEmplaced(c), AcceptStarted, AcceptAgain]
    {
      hide Emplace, ManagePass, Visit;
      VisitReady(cfg, history);
      if ec {
        accept := Stopped;
        Record(AcceptFails);
      } else if currentConnsCnt >= cfg.max {
        Record(AcceptRefused);
      } else {
        accept := Checked;
        Record(AcceptChecked);
        OneAcceptStep(old(history).acts, AcceptChecked);
        ghost var c := AcceptOne();
      }
    }

    /** The rest of accept_handler, past the limit check. Its local pointer goes away
        some time after the last step, by FrameReturns. */
    method AcceptOne() returns (ghost c: Conn)
      requires Valid() && !aborted && accept.Checked?
      modifies this
      ensures Valid() && (!aborted ==> accept.Listening?)
      ensures !aborted ==> AcceptSteps(history.acts)
                           == AcceptSteps(old(history).acts) + [AcceptEmplaced(c), AcceptStarted, AcceptAgain]
    {
      c := 0;
      OthersDuringAccept();
      if !aborted {
        var newC := LockedSection();
        c := newC;
        StartAndListen(newC);
      }
    }

    method StartAndListen(newC: Conn)
      requires Valid() && accept == Emplaced(newC)
      modifies this
      ensures Valid() && (!aborted ==> accept.Listening?)
      ensures !aborted ==> AcceptSteps(history.acts) == AcceptSteps(old(history).acts) + [AcceptStarted, AcceptAgain]
    {
      OthersDuringAccept();
      if !aborted {
        Start(newC);
        OthersDuringAccept();
        if !aborted { Listen(); }
      }
    }

    /** The part of accept_handler under front_conns_mutex_; its assertion is proved. */
    method LockedSection() returns (newC: Conn)
      requires Valid() && !aborted && accept.Checked?
      modifies this
      ensures Valid() && accept == Emplaced(newC)
      ensures AcceptSteps(history.acts) == AcceptSteps(old(history).acts) + [AcceptEmplaced(newC)]
    {
      SectionReady(cfg, history);
      assert cachedConns != [] ==> UseCount(Abs(), cachedConns[0]) == 1;      // the assert
      newC := TakeOrMake();
      Record(AcceptEmplaced(newC));
      OneAcceptStep(old(history).acts, AcceptEmplaced(newC));
    }

    method TakeOrMake() returns (newC: Conn)
      requires Shaped(Abs())
      requires cachedConns != [] ==> cachedConns[0] in objects
      modifies this`objects, this`frontConns, this`currentConnsCnt, this`cachedConns, this`timingWheel, this`held, this`accept
      ensures if old(cachedConns) == [] then newC !in old(objects) else newC == old(cachedConns)[0] && newC in old(objects)
      ensures Abs() == Taken(old(Abs()), newC)
    {
      newC := Obtain();
      Register(newC);
    }

    method Register(newC: Conn)
      requires |timingWheel| == BUCKETS
      modifies this`frontConns, this`currentConnsCnt, this`timingWheel, this`held, this`accept
      ensures Abs() == old(Abs()).(front := old(frontConns.Keys) + {newC}, cnt := old(currentConnsCnt) + 1,
                                   wheel := Enrol(old(timingWheel), newC), held := old(held)[newC := old(held)[newC] + 1],
                                   accept := Emplaced(newC))
    {
      frontConns := frontConns[newC := 0];
      assert frontConns.Keys == old(frontConns.Keys) + {newC};
      currentConnsCnt := currentConnsCnt + 1;
      timingWheel := timingWheel[BUCKETS - 1 := timingWheel[BUCKETS - 1] + {newC}];
      held := held[newC := held[newC] + 1];
      accept := Emplaced(newC);
    }

    method Obtain() returns (newC: Conn)
      requires cachedConns != [] ==> cachedConns[0] in objects
      modifies this`objects, this`cachedConns
      ensures if old(cachedConns) == []
              then newC !in old(objects) && cachedConns == [] && objects == old(objects)[newC := Life(Pending, 0, 0, now)]
              else newC == old(cachedConns)[0] && cachedConns == old(cachedConns)[1..]
                   && objects == old(objects)[newC := old(objects)[newC].(touch := now)]
    {
      if cachedConns != [] {
        newC := cachedConns[0];
        cachedConns := cachedConns[1..];
        objects := objects[newC := objects[newC].(touch := now)];     // conn_reset_network
      } else {
        newC := Unused(objects.Keys);
        objects := objects[newC := Life(Pending, 0, 0, now)];
      }
    }

    method Start(newC: Conn)
      requires Valid() && !aborted && accept == Emplaced(newC)
      modifies this
      ensures Valid() && accept == Started(newC)
      ensures AcceptSteps(history.acts) == AcceptSteps(old(history).acts) + [AcceptStarted]
    {
      StartReady(cfg, history);
      objects, accept := objects[newC := StartLife(objects[newC], now)], Started(newC);
      Record(AcceptStarted);
      OneAcceptStep(old(history).acts, AcceptStarted);
    }

    method Listen()
      requires Valid() && !aborted && accept.Started?
      modifies this
      ensures Valid() && accept.Listening?
      ensures AcceptSteps(history.acts) == AcceptSteps(old(history).acts) + [AcceptAgain]
    {
      VisitReady(cfg, history);
      accept := Listening;
      Record(AcceptAgain);
      OneAcceptStep(old(history).acts, AcceptAgain);
    }

    /** timing_wheel_check: a copy, one visit for each entry of bucket 0 and a push, the
        others running in between. Unless the program aborts the wheel has turned by
        one, and the manage thread is notified exactly if some visit evicted. */
    method TimingWheelCheck() returns (notify: bool)
      requires Valid() && !aborted && scan.Idle? && now >= due
      modifies this
      ensures Valid() && old(history).states <= history.states && old(history).acts <= history.acts
      ensures !aborted ==> scan.Idle? && ticks == old(ticks) + 1 && due == now + cfg.Spare()
      ensures !aborted ==> (notify <==> AnyEviction(cfg, history, |old(history).acts|))
    {
      ghost var n := |history.acts|;
      notify := false;
      VisitReady(cfg, history);
      var frontModi, rest := timingWheel[0], timingWheel[0];
      scan := Scanning(frontModi, rest);
      Record(WheelCopies);
      while rest != {}
        invariant Valid() && !aborted && old(history).states <= history.states && old(history).acts <= history.acts
        invariant scan == Scanning(frontModi, rest) && ticks == old(ticks)
        invariant notify <==> AnyEviction(cfg, history, n)
        decreases |rest|
      {
        var item :| item in rest;
        var evicted := OneVisit(item, n);
        if aborted { return; }
        rest := rest - {item};
        frontModi := scan.modi;
        notify := notify || evicted;
      }
      Push(n);
    }

    /** One iteration of its loop, after whatever the others did since the last one. */
    method OneVisit(item: Conn, ghost n: nat) returns (evicted: bool)
      requires Valid() && !aborted && scan.Scanning? && item in scan.toVisit && n <= |history.acts|
      modifies this
      ensures Valid() && old(history).states <= history.states && old(history).acts <= history.acts
      ensures scan.Scanning? && ticks == old(ticks) && n <= |history.acts|
      ensures !aborted ==> scan.toVisit == old(scan).toVisit - {item}
      ensures AnyEviction(cfg, history, n) <==> old(AnyEviction(cfg, history, n)) || evicted
    {
      ghost var before := history;
      Interference(OfWheel);
      WheelUndisturbed(cfg, before, history, |history.acts|);
      NoOtherEviction(cfg, before, history, n);
      VisitReady(cfg, history);
      ghost var run := history;
      evicted := Examine(item);
      OneMore(cfg, run, WheelVisits(item), Abs(), n);
      Record(WheelVisits(item));
    }

    method Examine(item: Conn) returns (evicted: bool)
      requires !aborted && scan.Scanning? && item in scan.toVisit && item in objects
      modifies this`objects, this`pendingToRemove, this`scan, this`aborted
      ensures Abs() == Visit(cfg, old(Abs()), item)
      ensures evicted <==> Evicting(cfg, old(Abs()), WheelVisits(item))
      ensures scan.Scanning? && (!aborted ==> scan.toVisit == old(scan).toVisit - {item})
    {
      evicted := false;
      var modi, left := scan.modi, scan.toVisit - {item};
      if UseCount(Abs(), item) > 0 {                                  // item.lock()
        if objects[item].stats == Pending {
          if item !in cachedConns {                                   // the assert
            aborted := true;
            return;
          }
          modi := modi - {item};
        } else if objects[item].touch + (cfg.expire - cfg.Spare()) <= now {
          modi := modi - {item};
          objects := objects[item := objects[item].(stats := Error)];
          pendingToRemove := pendingToRemove + {item};                // push_to_remove
          evicted := true;
        }
      } else {
        modi := modi - {item};
      }
      scan := Scanning(modi, left);
    }

    /** The rotation under front_conns_mutex_, and the timer set again. */
    method Push(ghost n: nat)
      requires Valid() && !aborted && scan.Scanning? && scan.toVisit == {} && n <= |history.acts|
      modifies this
      ensures Valid() && !aborted && old(history).states <= history.states && old(history).acts <= history.acts
      ensures scan.Idle? && ticks == old(ticks) + 1 && due == now + cfg.Spare()
      ensures AnyEviction(cfg, history, n) <==> old(AnyEviction(cfg, history, n))
    {
      ghost var before := history;
      var frontModi := scan.modi;
      Interference(OfWheel);
      WheelUndisturbed(cfg, before, history, |history.acts|);
      NoOtherEviction(cfg, before, history, n);
      VisitReady(cfg, history);
      ghost var run := history;
      timingWheel, scan, due, ticks := timingWheel[1..] + [frontModi], Idle, now + cfg.Spare(), ticks + 1;
      OneMore(cfg, run, WheelPushes, Abs(), n);
      Record(WheelPushes);
    }

    /** The pass of manage_thread, both mutexes held, over pending_to_remove_ in any
        order: what `Swept` says, with the program's assertions proved on the way. */
    method ManageThreadPass()
      requires Valid() && !aborted && pendingToRemove != {}
      modifies this
      ensures Valid() && !aborted && pendingToRemove == {}
      ensures Orderly(cfg, old(Abs())) && Swept(cfg, old(Abs()), old(pendingToRemove), Abs())
      ensures |history.acts| == |old(history).acts| + 1 && old(history).acts <= history.acts
      ensures history.acts[|old(history).acts|].ManageRuns?
    {
      PassReady(cfg, history);
      ghost var order := RemoveAll();
      PassSpec(cfg, old(Abs()), order);
      assert |frontConns| == |frontConns.Keys| == currentConnsCnt;    // the assert at its end
      Record(ManageRuns(order));
    }

    method RemoveAll() returns (ghost order: seq<Conn>)
      requires Orderly(cfg, Abs())
      modifies this`objects, this`frontConns, this`currentConnsCnt, this`cachedConns, this`timingWheel, this`pendingToRemove
      ensures Enumerates(order, old(pendingToRemove))
      ensures Abs() == ManagePass(cfg, old(Abs()), order)
    {
      order := RemoveEach();
      PassSpec(cfg, old(Abs()), order);
      pendingToRemove := {};
    }

    method RemoveEach() returns (ghost order: seq<Conn>)
      requires Orderly(cfg, Abs())
      modifies this`objects, this`frontConns, this`currentConnsCnt, this`cachedConns, this`timingWheel
      ensures Enumerates(order, pendingToRemove) && Abs() == ManageItems(cfg, old(Abs()), order)
    {
      ghost var s := Abs();
      order := [];
      assert s.pending <= s.conns.Keys && forall q: seq<Conn>, c :: c in q <==> c in Elems(q);
      var rest := pendingToRemove;
      while rest != {}
        invariant rest <= s.pending && Distinct(order) && Elems(order) == s.pending - rest
        invariant Abs() == ManageItems(cfg, s, order)
        decreases |rest|
      {
        hide Orderly, ManageItems, ManageItem, Distinct, Elems;
        var item :| item in rest;
        rest := rest - {item};
        NextItem(cfg, s, order, item);
        order := order + [item];
        RemoveOne(item);
      }
      assert Elems(order) == s.pending;
    }

    /** One iteration: `item` itself is the reference added to the count. */
    method RemoveOne(item: Conn)
      requires item in objects && |timingWheel| == BUCKETS
      requires item in frontConns && UseCount(Abs(), item) + 1 <= 3 ==> objects[item].stats != Working
      modifies this`objects, this`frontConns, this`currentConnsCnt, this`cachedConns, this`timingWheel
      ensures Abs() == ManageItem(cfg, old(Abs()), item)
    {
      if item in frontConns {
        if UseCount(Abs(), item) + 1 > 3 {
          timingWheel := timingWheel[BUCKETS - 1 := timingWheel[BUCKETS - 1] + {item}];
          return;
        }
        frontConns := frontConns - {item};
        currentConnsCnt := currentConnsCnt - 1;
        if 10 * |cachedConns| < 3 * cfg.max {
          assert objects[item].stats != Working;                      // conn_wash_white
          objects := objects[item := objects[item].(stats := Pending)];
          cachedConns := cachedConns + [item];
        }
      }
    }
  }

  lemma NextItem(cfg: Config, s: State, order: seq<Conn>, item: Conn)
    requires Orderly(cfg, s) && Distinct(order) && Elems(order) <= s.pending && item in s.pending && item !in order
    ensures Distinct(order + [item]) && Elems(order + [item]) == Elems(order) + {item}
    ensures var r := ManageItems(cfg, s, order);
            && ManageItems(cfg, s, order + [item]) == ManageItem(cfg, r, item)
            && (UseCount(r, item) + 1 <= 3 ==> !r.conns[item].stats.Working?)
            && !ManageItem(cfg, r, item).aborted
  {
    SweepItems(cfg, s, order);
    SameTest(cfg, s, Elems(order), ManageItems(cfg, s, order), item);
    assert (order + [item])[..|order|] == order;
  }

  method Unused(used: set<Conn>) returns (c: Conn)
    ensures c !in used
  {
    c := 0;
    var rest := used;
    while rest != {}
      invariant rest <= used && forall d :: d in used && d !in rest ==> d < c
      decreases |rest|
    {
      var d :| d in rest;
      rest := rest - {d};
      if d >= c { c := d + 1; }
    }
  }
}
