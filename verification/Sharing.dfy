/** Requests of different connections that share the cache: another request may run between
    the get and the set of one. When is the cache invisible then? */
module Sharing {
  import opened Text
  import opened Memo

  /** Request i asks Redis, with luck or not; later, if it found nothing, it has the
      backend's answer and tries to store it. */
  datatype Step = Gets(i: nat, ok: bool) | Finishes(i: nat, applied: bool)

  datatype Shared = Shared(store: Store, begun: set<nat>, waiting: set<nat>, replies: map<nat, Option<string>>)

  predicate Enabled(asks: seq<Ask>, s: Shared, t: Step) {
    t.i < |asks| && if t.Gets? then t.i !in s.begun else t.i in s.waiting && asks[t.i].key.Some?
  }

  function Take(asks: seq<Ask>, s: Shared, t: Step): Shared
    requires Enabled(asks, s, t)
  {
    var i, q := t.i, asks[t.i];
    match t
    case Gets(_, ok) =>
      var b := s.(begun := s.begun + {i});
      if q.key.None? then b.(replies := s.replies[i := None])
      else if ok && q.key.value in s.store then b.(replies := s.replies[i := Some(CStr(s.store[q.key.value]))])
      else b.(waiting := s.waiting + {i})
    case Finishes(_, applied) =>
      var d := s.(waiting := s.waiting - {i}, replies := s.replies[i := q.answer]);
      if q.answer.Some? && applied then d.(store := s.store[q.key.value := CStr(q.answer.value)]) else d
  }

  /** The state after some steps, in whatever order the requests take them; None if they
      cannot be taken in that order. */
  function AfterSteps(store: Store, asks: seq<Ask>, steps: seq<Step>): Option<Shared> {
    if steps == [] then Some(Shared(store, {}, {}, map[])) else
    var n := |steps| - 1;
    var s := AfterSteps(store, asks, steps[..n]);
    if s.Some? && Enabled(asks, s.value, steps[n]) then Some(Take(asks, s.value, steps[n])) else None
  }

  ghost predicate AllUncached(asks: seq<Ask>, s: Shared) {
    forall i :: i in s.replies ==> i < |asks| && s.replies[i] == Uncached(asks[i])
  }

  /** The answers, and what the store starts with, agree for each key, whichever of two
      requests comes first. */
  ghost predicate ConsistentBothWays(store: Store, asks: seq<Ask>) {
    && (forall k, j :: k in store && 0 <= j < |asks| ==> Suits(asks[j], k, store[k]))
    && (forall i, j :: 0 <= i < |asks| && 0 <= j < |asks| && i != j && asks[i].key.Some? && asks[i].answer.Some? ==>
          Suits(asks[j], asks[i].key.value, asks[i].answer.value))
  }

  // What is stored was there at first or comes from a request that has finished.
  ghost predicate ComesFrom(store: Store, asks: seq<Ask>, s: Shared, k: string, value: string) {
    || (k in store && store[k] == value)
    || (exists i :: i in s.begun && i < |asks| && asks[i].key == Some(k) && asks[i].answer.Some?
                    && value == CStr(asks[i].answer.value))
  }

  ghost predicate Kept(store: Store, asks: seq<Ask>, s: Shared) {
    && s.waiting <= s.begun && AllUncached(asks, s)
    && forall k :: k in s.store ==> ComesFrom(store, asks, s, k, s.store[k])
  }

  lemma GetKeeps(store: Store, asks: seq<Ask>, s: Shared, j: nat, ok: bool)
    requires ConsistentBothWays(store, asks) && Kept(store, asks, s) && Enabled(asks, s, Gets(j, ok))
    ensures Kept(store, asks, Take(asks, s, Gets(j, ok)))
  {
    var q, t := asks[j], Take(asks, s, Gets(j, ok));
    forall k | k in t.store ensures ComesFrom(store, asks, t, k, t.store[k]) {
      assert ComesFrom(store, asks, s, k, s.store[k]);
    }
    if q.key.Some? && ok && q.key.value in s.store {
      var k := q.key.value;
      assert ComesFrom(store, asks, s, k, s.store[k]);
      if k in store && store[k] == s.store[k] {
        assert Suits(q, k, store[k]);
      } else {
        var i :| i in s.begun && i < |asks| && asks[i].key == Some(k) && asks[i].answer.Some?
                 && s.store[k] == CStr(asks[i].answer.value);
        assert Suits(q, asks[i].key.value, asks[i].answer.value);
      }
    }
  }

  lemma FinishKeeps(store: Store, asks: seq<Ask>, s: Shared, j: nat, applied: bool)
    requires Kept(store, asks, s) && Enabled(asks, s, Finishes(j, applied))
    ensures Kept(store, asks, Take(asks, s, Finishes(j, applied)))
  {
    var t := Take(asks, s, Finishes(j, applied));
    forall k | k in t.store ensures ComesFrom(store, asks, t, k, t.store[k]) {
      if k in s.store && t.store[k] == s.store[k] { assert ComesFrom(store, asks, s, k, s.store[k]); }
    }
  }

  lemma {:induction false} StepsKeep(store: Store, asks: seq<Ask>, steps: seq<Step>)
    requires ConsistentBothWays(store, asks) && AfterSteps(store, asks, steps).Some?
    ensures Kept(store, asks, AfterSteps(store, asks, steps).value)
  {
    if steps != [] {
      var n := |steps| - 1;
      StepsKeep(store, asks, steps[..n]);
      var s := AfterSteps(store, asks, steps[..n]).value;
      match steps[n]
      case Gets(j, ok) => GetKeeps(store, asks, s, j, ok);
      case Finishes(j, applied) => FinishKeeps(store, asks, s, j, applied);
    }
  }

  lemma OneMoreStep(store: Store, asks: seq<Ask>, steps: seq<Step>, t: Step)
    requires AfterSteps(store, asks, steps).Some? && Enabled(asks, AfterSteps(store, asks, steps).value, t)
    ensures AfterSteps(store, asks, steps + [t]) == Some(Take(asks, AfterSteps(store, asks, steps).value, t))
  {
    assert (steps + [t])[..|steps|] == steps;
  }

  // One request may be given what another has stored.
  lemma StaleSteps(store: Store, asks: seq<Ask>, i: nat, j: nat) returns (steps: seq<Step>)
    requires i < |asks| && j < |asks| && i != j && asks[i].key.Some? && asks[i].answer.Some?
    requires !Suits(asks[j], asks[i].key.value, asks[i].answer.value)
    ensures AfterSteps(store, asks, steps).Some? && !AllUncached(asks, AfterSteps(store, asks, steps).value)
  {
    OneMoreStep(store, asks, [], Gets(i, false));
    OneMoreStep(store, asks, [Gets(i, false)], Finishes(i, true));
    OneMoreStep(store, asks, [Gets(i, false), Finishes(i, true)], Gets(j, true));
    steps := [Gets(i, false), Finishes(i, true), Gets(j, true)];
    assert [] + [Gets(i, false)] == [Gets(i, false)];
    assert steps == [Gets(i, false), Finishes(i, true)] + [Gets(j, true)];
    assert j in AfterSteps(store, asks, steps).value.replies;
  }

  /** Memo transparency under concurrency, exactly: however the requests interleave between
      their gets and sets, and whichever of these fail, every reply is that of the handler
      without a cache, if and only if the answers are consistent for their keys. */
  lemma SharedTransparentIff(store: Store, asks: seq<Ask>)
    ensures ConsistentBothWays(store, asks)
       <==> forall steps :: AfterSteps(store, asks, steps).Some? ==> AllUncached(asks, AfterSteps(store, asks, steps).value)
  {
    if ConsistentBothWays(store, asks) {
      forall steps | AfterSteps(store, asks, steps).Some?
        ensures AllUncached(asks, AfterSteps(store, asks, steps).value)
      {
        StepsKeep(store, asks, steps);
      }
    } else if k, j :| k in store && 0 <= j < |asks| && !Suits(asks[j], k, store[k]) {
      OneMoreStep(store, asks, [], Gets(j, true));
      assert [] + [Gets(j, true)] == [Gets(j, true)];
      assert j in AfterSteps(store, asks, [Gets(j, true)]).value.replies;
    } else {
      var i, j :| 0 <= i < |asks| && 0 <= j < |asks| && i != j && asks[i].key.Some? && asks[i].answer.Some?
                  && !Suits(asks[j], asks[i].key.value, asks[i].answer.value);
      var steps := StaleSteps(store, asks, i, j);
    }
  }

  /** In particular for documents: if the backend's answers depend on the uuid, or without
      one on the content, contain no NUL, and no two subjects share a key, then however the
      requests interleave over an empty store no document gets another reply than without
      the cache. */
  lemma DocumentsShared(docs: seq<Option<Doc>>, md5: string -> string, answers: seq<Option<string>>,
                        backend: Subject -> Option<string>, steps: seq<Step>)
    requires |docs| == |answers| && KeysApart(docs, md5)
    requires forall i :: 0 <= i < |docs| && KeyOf(docs[i], md5).Some? ==>
               answers[i] == backend(SubjectOf(docs[i].value).value)
    requires forall i :: 0 <= i < |docs| && answers[i].Some? ==> NulFree(answers[i].value)
    requires AfterSteps(map[], AsksOf(docs, md5, answers), steps).Some?
    ensures AllUncached(AsksOf(docs, md5, answers), AfterSteps(map[], AsksOf(docs, md5, answers), steps).value)
  {
    var asks := AsksOf(docs, md5, answers);
    forall i, j | 0 <= i < |asks| && 0 <= j < |asks| && i != j && asks[i].key.Some? && asks[i].answer.Some?
      ensures Suits(asks[j], asks[i].key.value, asks[i].answer.value)
    {
      if asks[j].key == asks[i].key { KeyDecides(docs, md5, i, j); }
    }
    StepsKeep(map[], asks, steps);
  }
}
