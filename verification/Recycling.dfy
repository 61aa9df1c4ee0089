/** What one pass of the manage thread does, for any iteration order. */
module Recycling {
  import opened Lifecycle
  import opened Protocol

  // What the pass relies on; part of the invariant of every reachable state.
  ghost predicate Orderly(cfg: Config, s: State) {
    && Shaped(s) && !s.aborted && s.pending <= s.front && s.cnt == |s.front|
    && Distinct(s.cached) && (forall c :: c in s.cached ==> c !in s.front)
    && |s.cached| <= cfg.CacheCap()
    && forall c :: c in s.conns && s.conns[c].stats.Working? ==> s.conns[c].rOps == 1
  }

  /** use_count() <= 3 in the pass: the map entry, the pending entry and `item` are the
      only references left. */
  predicate Releasable(s: State, c: Conn)
    requires c in s.conns
  {
    UseCount(s, c) + 1 <= 3
  }

  /** No operation and no accept frame holds the object. */
  predicate Quiescent(s: State, c: Conn)
    requires c in s.conns
  {
    s.conns[c].rOps == 0 && s.conns[c].wOps == 0 && s.held[c] == 0
  }

  ghost function Released(s: State, among: set<Conn>): set<Conn>
    requires among <= s.conns.Keys
  {
    set c | c in among && Quiescent(s, c)
  }

  /** The reference-count test decides quiescence exactly. */
  lemma ReleasableIffQuiescent(cfg: Config, s: State, c: Conn)
    requires Orderly(cfg, s) && c in s.pending
    ensures Releasable(s, c) <==> Quiescent(s, c)
  {
    assert c !in multiset(s.cached);
  }

  function Min(a: int, b: int): int { if a <= b then a else b }

  /** The map, the counter and the wheel after the items `done` have been handled. */
  ghost predicate Thinned(s: State, done: set<Conn>, front: set<Conn>, cnt: int, wheel: seq<set<Conn>>)
    requires Shaped(s) && done <= s.conns.Keys
  {
    var gone := Released(s, done);
    && front == s.front - gone
    && cnt == s.cnt - |gone|
    && wheel == s.wheel[BUCKETS - 1 := s.wheel[BUCKETS - 1] + (done - gone)]
  }

  /** The cache and the objects after those in `gone` have been taken out of the map. */
  ghost predicate Recycled(cfg: Config, s: State, gone: set<Conn>, cached: seq<Conn>, conns: map<Conn, Life>) {
    && s.cached <= cached && Distinct(cached)
    && |cached| == Min(|s.cached| + |gone|, cfg.CacheCap())
    && (forall i :: |s.cached| <= i < |cached| ==> cached[i] in gone)
    && conns.Keys == s.conns.Keys
    && (forall c :: c in s.conns ==>
          conns[c] == (if c in cached && c !in s.cached then s.conns[c].(stats := Pending) else s.conns[c]))
  }

  /** The state after the items `done` have been handled, stated without the loop. */
  ghost predicate Swept(cfg: Config, s: State, done: set<Conn>, r: State)
    requires Shaped(s) && done <= s.conns.Keys
  {
    && Thinned(s, done, r.front, r.cnt, r.wheel)
    && Recycled(cfg, s, Released(s, done), r.cached, r.conns)
    && r == s.(front := r.front, cnt := r.cnt, wheel := r.wheel, cached := r.cached, conns := r.conns,
               pending := r.pending)
  }

  // An item handled when `done` have been: nothing the test looks at has changed.
  lemma SameTest(cfg: Config, s: State, done: set<Conn>, r: State, c: Conn)
    requires Orderly(cfg, s) && done <= s.pending && c in s.pending && c !in done
    requires Swept(cfg, s, done, r) && r.pending == s.pending
    ensures c in r.front && c !in r.cached && r.conns[c] == s.conns[c]
    ensures UseCount(r, c) + 1 <= 3 <==> Quiescent(s, c)
  {
    assert c !in multiset(r.cached) && c !in multiset(s.cached);
  }

  lemma SweepKept(cfg: Config, s: State, done: set<Conn>, r: State, c: Conn)
    requires Orderly(cfg, s) && done <= s.pending && c in s.pending && c !in done && !Quiescent(s, c)
    requires Swept(cfg, s, done, r) && r.pending == s.pending
    ensures Swept(cfg, s, done + {c}, r.(wheel := Enrol(r.wheel, c)))
  {
    var gone := Released(s, done);
    assert Released(s, done + {c}) == gone;
    assert s.wheel[BUCKETS - 1] + (done + {c} - gone) == s.wheel[BUCKETS - 1] + (done - gone) + {c};
  }

  lemma TrimReleased(s: State, done: set<Conn>, r: State, c: Conn)
    requires Shaped(s) && done <= s.pending && c in s.pending && c !in done && Quiescent(s, c)
    requires Thinned(s, done, r.front, r.cnt, r.wheel)
    ensures Released(s, done + {c}) == Released(s, done) + {c}
    ensures Thinned(s, done + {c}, r.front - {c}, r.cnt - 1, r.wheel)
  {
    var gone := Released(s, done);
    assert Released(s, done + {c}) == gone + {c} && c !in gone;
    assert done + {c} - (gone + {c}) == done - gone;
    assert s.front - gone - {c} == s.front - (gone + {c});
  }

  lemma RecycleOne(cfg: Config, s: State, gone: set<Conn>, r: State, c: Conn)
    requires Recycled(cfg, s, gone, r.cached, r.conns) && c in s.conns && c !in gone && c !in r.cached
    requires |s.cached| <= cfg.CacheCap()
    ensures cfg.CacheHasRoom(|r.cached|) ==>
              Recycled(cfg, s, gone + {c}, r.cached + [c], r.conns[c := s.conns[c].(stats := Pending)])
    ensures !cfg.CacheHasRoom(|r.cached|) ==> Recycled(cfg, s, gone + {c}, r.cached, r.conns)
  {
    assert |gone + {c}| == |gone| + 1;
    var q := r.cached + [c];
    assert forall d :: d in q <==> d in r.cached || d == c;
  }

  lemma SweepReleased(cfg: Config, s: State, done: set<Conn>, r: State, c: Conn, r': State)
    requires Orderly(cfg, s) && done <= s.pending && c in s.pending && c !in done && Quiescent(s, c)
    requires Swept(cfg, s, done, r) && r.pending == s.pending
    requires c in r.front && c !in r.cached && UseCount(r, c) + 1 <= 3 && r.conns[c] == s.conns[c]
    requires r' == ManageItem(cfg, r, c)
    ensures Swept(cfg, s, done + {c}, r')
  {
    assert !s.conns[c].stats.Working? && c !in Released(s, done) && |s.cached| <= cfg.CacheCap();
    hide Thinned, Recycled, Released, Orderly, Quiescent, Distinct, Min;
    TrimReleased(s, done, r, c);
    RecycleOne(cfg, s, Released(s, done), r, c);
  }

  lemma SweepItem(cfg: Config, s: State, done: set<Conn>, r: State, c: Conn)
    requires Orderly(cfg, s) && done <= s.pending && c in s.pending && c !in done
    requires Swept(cfg, s, done, r) && r.pending == s.pending
    ensures var r' := ManageItem(cfg, r, c); Swept(cfg, s, done + {c}, r') && r'.pending == s.pending
  {
    SameTest(cfg, s, done, r, c);
    if Quiescent(s, c) {
      SweepReleased(cfg, s, done, r, c, ManageItem(cfg, r, c));
    } else {
      SweepKept(cfg, s, done, r, c);
    }
  }

  lemma {:induction false} SweepItems(cfg: Config, s: State, order: seq<Conn>)
    requires Orderly(cfg, s) && Distinct(order) && Elems(order) <= s.pending
    ensures Swept(cfg, s, Elems(order), ManageItems(cfg, s, order))
    ensures ManageItems(cfg, s, order).pending == s.pending
  {
    if order == [] {
      assert Released(s, {}) == {};
      assert Elems(order) == {};
      assert s.wheel[BUCKETS - 1] + ({} - {}) == s.wheel[BUCKETS - 1];
    } else {
      var n := |order| - 1;
      assert order == order[..n] + [order[n]];
      SweepItems(cfg, s, order[..n]);
      assert Elems(order) == Elems(order[..n]) + {order[n]};
      SweepItem(cfg, s, Elems(order[..n]), ManageItems(cfg, s, order[..n]), order[n]);
    }
  }

  /** The whole pass, for every iteration order: it empties `pending`, removes exactly
      the quiescent members of it, takes their number off the counter, enrols every
      other one in the last bucket, fills the cache to min(old + k, cap) with washed
      objects, changes nothing else, and its assertion holds. */
  lemma PassSpec(cfg: Config, s: State, order: seq<Conn>)
    requires Orderly(cfg, s) && Enumerates(order, s.pending)
    ensures var r := ManagePass(cfg, s, order);
            Swept(cfg, s, s.pending, r) && r.pending == {} && r.cnt == |r.front| && !r.aborted
  {
    SweepItems(cfg, s, order);
    SizeWithout(s.front, Released(s, s.pending));
  }

  /** Every object taken out of the map is afterwards in the cache or referenced by
      nothing at all: the pass loses no object and leaks none. */
  lemma PassConserves(cfg: Config, s: State, order: seq<Conn>, c: Conn)
    requires Orderly(cfg, s) && Enumerates(order, s.pending) && c in s.pending
    ensures var r := ManagePass(cfg, s, order);
            && (c in r.front <==> !Quiescent(s, c))
            && (c in r.front ==> c in r.wheel[BUCKETS - 1] && c !in r.cached)
            && (c !in r.front ==> UseCount(r, c) == (if c in r.cached then 1 else 0))
  {
    PassSpec(cfg, s, order);
    var r := ManagePass(cfg, s, order);
    if c in r.cached { DistinctOnce(r.cached, c); } else { assert c !in multiset(r.cached); }
  }

  lemma SizeWithout(a: set<Conn>, b: set<Conn>)
    requires b <= a
    ensures |a - b| == |a| - |b|
  {
    assert a == (a - b) + b;
  }

  lemma {:induction false} DistinctOnce(q: seq<Conn>, c: Conn)
    requires Distinct(q) && c in q
    ensures multiset(q)[c] == 1
  {
    assert q == [q[0]] + q[1..];
    assert multiset(q) == multiset{q[0]} + multiset(q[1..]);
    if q[0] == c { assert c !in multiset(q[1..]); } else { DistinctOnce(q[1..], c); }
  }
}
