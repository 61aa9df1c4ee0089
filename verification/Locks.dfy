/** The two mutexes, conn_notify_mutex and front_conns_mutex_, taken by any number of
    threads along the paths of the program: who may wait for whom. */
module Locks {

  type Tid = nat

  datatype Mutex = NotifyMutex | FrontMutex

  /** Where a thread stands between its lock operations. */
  datatype Place =
    | Outside
    | PushWants | PushHolds                   // push_to_remove
    | SectionWants | SectionHolds             // accept section, wheel push, request_session_id
    | ManageWants | ManageHolds               // the head of the manage loop
    | CondWait | CondRewants | Awake          // timed_wait: gives the mutex up, takes it again
    | PassWants | PassHolds                   // the removal pass: the second mutex inside the first
    | ShowWants | ShowHolds                   // the timeout branch: show_conns_info inside the first
    | Leaving                                 // front_conns_mutex_ released, the other not yet

  predicate Holds(p: Place, m: Mutex) {
    match m
    case NotifyMutex =>
      p.PushHolds? || p.ManageHolds? || p.Awake? || p.PassWants? || p.PassHolds? || p.ShowWants? || p.ShowHolds? || p.Leaving?
    case FrontMutex => p.SectionHolds? || p.PassHolds? || p.ShowHolds?
  }

  predicate Wants(p: Place, m: Mutex) {
    match m
    case NotifyMutex => p.PushWants? || p.ManageWants? || p.CondRewants?
    case FrontMutex => p.SectionWants? || p.PassWants? || p.ShowWants?
  }

  /** The control flow of the program, lock operation by lock operation. */
  predicate Edge(p: Place, q: Place) {
    match p
    case Outside => q.PushWants? || q.SectionWants? || q.ManageWants?
    case PushWants => q.PushHolds?
    case PushHolds => q.Outside?
    case SectionWants => q.SectionHolds?
    case SectionHolds => q.Outside?
    case ManageWants => q.ManageHolds?
    case ManageHolds => q.CondWait?
    case CondWait => q.CondRewants?
    case CondRewants => q.Awake?
    case Awake => q.Outside? || q.PassWants? || q.ShowWants?
    case PassWants => q.PassHolds?
    case PassHolds => q.Leaving?
    case ShowWants => q.ShowHolds?
    case ShowHolds => q.Leaving?
    case Leaving => q.Outside?
  }

  type Threads = map<Tid, Place>

  predicate Free(s: Threads, m: Mutex) {
    forall t :: t in s ==> !Holds(s[t], m)
  }

  predicate CanMove(s: Threads, t: Tid)
    requires t in s
  {
    forall m :: Wants(s[t], m) ==> Free(s, m)
  }

  predicate Step(s: Threads, t: Tid, s': Threads) {
    t in s && t in s' && s' == s[t := s'[t]] && Edge(s[t], s'[t]) && CanMove(s, t)
  }

  ghost predicate SomeStep(s: Threads, s': Threads) {
    exists t :: Step(s, t, s')
  }

  ghost predicate LockRun(run: seq<Threads>) {
    && |run| > 0
    && (forall t :: t in run[0] ==> run[0][t].Outside?)
    && forall k :: 0 <= k < |run| - 1 ==> SomeStep(run[k], run[k + 1])
  }

  ghost predicate Exclusive(s: Threads) {
    forall m, t, u :: t in s && u in s && Holds(s[t], m) && Holds(s[u], m) ==> t == u
  }

  // Only a step that wanted a mutex comes to hold one it did not hold.
  lemma AcquiresWhatItWants(p: Place, q: Place, m: Mutex)
    requires Edge(p, q) && Holds(q, m) && !Holds(p, m)
    ensures Wants(p, m)
  {
  }

  lemma ExclusiveStep(s: Threads, t: Tid, s': Threads)
    requires Exclusive(s) && Step(s, t, s')
    ensures Exclusive(s')
  {
    forall m, u, v | u in s' && v in s' && Holds(s'[u], m) && Holds(s'[v], m) ensures u == v {
      if Holds(s'[t], m) && !Holds(s[t], m) {
        AcquiresWhatItWants(s[t], s'[t], m);
        assert Free(s, m);
      }
      assert u != t ==> s[u] == s'[u];
      assert v != t ==> s[v] == s'[v];
    }
  }

  lemma {:induction false} ExclusiveRun(run: seq<Threads>, k: nat)
    requires LockRun(run) && k < |run|
    ensures Exclusive(run[k]) && run[k].Keys == run[0].Keys
  {
    if k > 0 {
      ExclusiveRun(run, k - 1);
      assert SomeStep(run[k - 1], run[k - 1 + 1]);
      var t :| Step(run[k - 1], t, run[k]);
      ExclusiveStep(run[k - 1], t, run[k]);
    }
  }

  /** Mutual exclusion, and no thread ever asks for a mutex it has. */
  lemma MutualExclusion(run: seq<Threads>, k: nat, t: Tid, m: Mutex)
    requires LockRun(run) && k < |run| && t in run[k] && Holds(run[k][t], m)
    ensures !Wants(run[k][t], m)
    ensures forall u :: u in run[k] && Holds(run[k][u], m) ==> u == t
  {
    ExclusiveRun(run, k);
  }

  /** t waits for h. */
  predicate WaitsFor(s: Threads, t: Tid, h: Tid)
    requires t in s && h in s
  {
    exists m :: Wants(s[t], m) && Holds(s[h], m)
  }

  /** A chain of threads that wait for one another has at most two links, since the
      mutexes are taken in one order only: whoever is waited for by a thread that is itself
      waited for can move. */
  lemma ChainsAreShort(s: Threads, t: Tid, h: Tid, g: Tid)
    requires t in s && h in s && g in s && WaitsFor(s, t, h) && WaitsFor(s, h, g)
    ensures CanMove(s, g)
  {
    var m :| Wants(s[t], m) && Holds(s[h], m);
    var n :| Wants(s[h], n) && Holds(s[g], n);
    assert m == NotifyMutex && n == FrontMutex;
  }

  /** A blocked thread is at the start of such a chain, and at its end is a thread that
      holds a mutex and can move. */
  lemma WaitsEnd(s: Threads, t: Tid)
    requires t in s && !CanMove(s, t)
    ensures exists h :: h in s && WaitsFor(s, t, h)
                        && (CanMove(s, h) || exists g :: g in s && WaitsFor(s, h, g) && CanMove(s, g))
    ensures exists h :: h in s && CanMove(s, h) && (exists m :: Holds(s[h], m))
  {
    var m :| Wants(s[t], m) && !Free(s, m);
    var h :| h in s && Holds(s[h], m);
    assert WaitsFor(s, t, h);
    if !CanMove(s, h) {
      var n :| Wants(s[h], n) && !Free(s, n);
      var g :| g in s && Holds(s[g], n);
      assert WaitsFor(s, h, g);
      ChainsAreShort(s, t, h, g);
    }
  }

  /** Deadlock freedom, for any number of threads: in every reachable state some thread
      is not blocked, and whenever one is blocked, a thread that holds a mutex can go on. */
  lemma NoDeadlock(run: seq<Threads>, k: nat)
    requires LockRun(run) && k < |run| && run[0] != map[]
    ensures exists t :: t in run[k] && CanMove(run[k], t)
    ensures forall t :: t in run[k] && !CanMove(run[k], t) ==>
              exists h :: h in run[k] && CanMove(run[k], h) && (exists m :: Holds(run[k][h], m))
  {
    ExclusiveRun(run, k);
    assert run[0].Keys != {};
    var t :| t in run[k];
    forall u | u in run[k] && !CanMove(run[k], u)
      ensures exists h :: h in run[k] && CanMove(run[k], h) && (exists m :: Holds(run[k][h], m))
    {
      WaitsEnd(run[k], u);
    }
  }
}
