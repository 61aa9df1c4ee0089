/** analyse_handler: the backend's answers kept in Redis under the uuid or the digest of
    the content. When is the cache invisible to the clients? */
module Memo {
  import opened Text

  const ACCESS_ID := "11488058246"

  /** The string members of a request document; GetString gives C strings. */
  datatype Doc = Doc(accessId: Option<string>, uuid: Option<string>, content: Option<string>)

  type Store = map<string, string>

  /** The Redis key of a request, None if it is refused. A body that is not JSON has no
      document. Digests and uuids live in one key space. */
  function KeyOf(doc: Option<Doc>, md5: string -> string): Option<string> {
    if doc.None? || doc.value.accessId.None? || CStr(doc.value.accessId.value) != ACCESS_ID then None
    else if doc.value.uuid.Some? then Some(CStr(doc.value.uuid.value))
    else if doc.value.content.Some? then Some(md5(CStr(doc.value.content.value)))
    else None
  }

  /** A request as the memo layer sees it: its key, and what the backend answers. */
  datatype Ask = Ask(key: Option<string>, answer: Option<string>)

  /** Redis during one request: whether the get gets through, and whether the set takes
      effect. */
  datatype Luck = Luck(getOk: bool, setApplied: bool)

  /** One request: the text of the reply, None for the error reply, and the new store. */
  function Handle(store: Store, q: Ask, l: Luck): (Option<string>, Store) {
    match q.key
    case None => (None, store)
    case Some(k) =>
      if l.getOk && k in store then (Some(CStr(store[k])), store) else
      match q.answer
      case None => (None, store)
      case Some(a) => (Some(a), if l.setApplied then store[k := CStr(a)] else store)
  }

  /** The handler without a cache. */
  function Uncached(q: Ask): Option<string> {
    if q.key.None? then None else q.answer
  }

  /** The cache keeps what it is given: what one request stores is what the next with its
      key is given, as a C string, and no other key notices. */
  lemma StoredIsGiven(store: Store, q: Ask, l: Luck, r: Ask, m: Luck)
    requires q.key.Some? && q.answer.Some? && l.setApplied && !(l.getOk && q.key.value in store) && m.getOk
    ensures var after := Handle(store, q, l).1;
            && (r.key == q.key ==> Handle(after, r, m).0 == Some(CStr(q.answer.value)))
            && (r.key != q.key ==> Handle(after, r, m).0 == Handle(store, r, m).0)
  {
  }

  function StoreAt(store: Store, asks: seq<Ask>, luck: seq<Luck>, n: nat): Store
    requires n <= |asks| == |luck|
  {
    if n == 0 then store else Handle(StoreAt(store, asks, luck, n - 1), asks[n - 1], luck[n - 1]).1
  }

  function ReplyAt(store: Store, asks: seq<Ask>, luck: seq<Luck>, n: nat): Option<string>
    requires n < |asks| == |luck|
  {
    Handle(StoreAt(store, asks, luck, n), asks[n], luck[n]).0
  }

  /** All replies are those of the uncached handler. */
  ghost predicate Transparent(store: Store, asks: seq<Ask>, luck: seq<Luck>)
    requires |asks| == |luck|
  {
    forall n :: 0 <= n < |asks| ==> ReplyAt(store, asks, luck, n) == Uncached(asks[n])
  }

  // A value under q's key that q may be given in place of its own answer.
  predicate Suits(q: Ask, k: string, value: string) {
    q.key == Some(k) ==> q.answer == Some(CStr(value))
  }

  /** The backend's answers, and what the store starts with, are functions of the key,
      with no NUL in an answer that is asked for again. */
  ghost predicate Consistent(store: Store, asks: seq<Ask>) {
    && (forall k, j :: k in store && 0 <= j < |asks| ==> Suits(asks[j], k, store[k]))
    && (forall i, j :: 0 <= i < j < |asks| && asks[i].key.Some? && asks[i].answer.Some? ==>
          Suits(asks[j], asks[i].key.value, asks[i].answer.value))
  }

  // Where a stored value comes from.
  ghost predicate Stems(store: Store, asks: seq<Ask>, n: nat, k: string, value: string)
    requires n <= |asks|
  {
    || (k in store && store[k] == value)
    || (exists i :: 0 <= i < n && asks[i].key == Some(k) && asks[i].answer.Some? && value == CStr(asks[i].answer.value))
  }

  lemma {:induction false} StoreStems(store: Store, asks: seq<Ask>, luck: seq<Luck>, n: nat, k: string)
    requires n <= |asks| == |luck| && k in StoreAt(store, asks, luck, n)
    ensures Stems(store, asks, n, k, StoreAt(store, asks, luck, n)[k])
  {
    if n > 0 {
      var before := StoreAt(store, asks, luck, n - 1);
      var value := StoreAt(store, asks, luck, n)[k];
      if k in before && before[k] == value {
        StoreStems(store, asks, luck, n - 1, k);
      } else {
        assert asks[n - 1].key == Some(k) && asks[n - 1].answer.Some? && value == CStr(asks[n - 1].answer.value);
      }
    }
  }

  lemma ConsistentIsTransparent(store: Store, asks: seq<Ask>, luck: seq<Luck>)
    requires |asks| == |luck| && Consistent(store, asks)
    ensures Transparent(store, asks, luck)
  {
    forall n | 0 <= n < |asks| ensures ReplyAt(store, asks, luck, n) == Uncached(asks[n]) {
      var s, q := StoreAt(store, asks, luck, n), asks[n];
      if q.key.Some? && luck[n].getOk && q.key.value in s {
        var k := q.key.value;
        StoreStems(store, asks, luck, n, k);
        if k in store && store[k] == s[k] {
          assert Suits(q, k, store[k]);
        } else {
          var i :| 0 <= i < n && asks[i].key == Some(k) && asks[i].answer.Some? && s[k] == CStr(asks[i].answer.value);
          assert Suits(q, asks[i].key.value, asks[i].answer.value);
        }
      }
    }
  }

  // Redis works for one set, at i, and one get, at j.
  function Once(n: nat, i: int, j: int): seq<Luck> {
    seq(n, m => Luck(m == j, m == i))
  }

  lemma {:induction false} OnceStore(store: Store, asks: seq<Ask>, i: int, j: int, n: nat)
    requires n <= |asks| && n <= j && i < j
    requires 0 <= i ==> i < |asks| && asks[i].key.Some? && asks[i].answer.Some?
    ensures StoreAt(store, asks, Once(|asks|, i, j), n)
         == if 0 <= i < n then store[asks[i].key.value := CStr(asks[i].answer.value)] else store
  {
    if n > 0 { OnceStore(store, asks, i, j, n - 1); }
  }

  lemma InconsistentShows(store: Store, asks: seq<Ask>) returns (luck: seq<Luck>)
    requires !Consistent(store, asks)
    ensures |luck| == |asks| && !Transparent(store, asks, luck)
  {
    if k, j :| k in store && 0 <= j < |asks| && !Suits(asks[j], k, store[k]) {
      luck := Once(|asks|, -1, j);
      OnceStore(store, asks, -1, j, j);
      assert ReplyAt(store, asks, luck, j) != Uncached(asks[j]);
    } else {
      var i, j :| 0 <= i < j < |asks| && asks[i].key.Some? && asks[i].answer.Some?
                  && !Suits(asks[j], asks[i].key.value, asks[i].answer.value);
      luck := Once(|asks|, i, j);
      OnceStore(store, asks, i, j, j);
      assert ReplyAt(store, asks, luck, j) != Uncached(asks[j]);
    }
  }

  /** Memo transparency, exactly: over a given sequence of requests the replies equal
      those of an uncached handler, whatever gets and sets fail, if and only if the
      backend's answers are consistent for the keys. */
  lemma TransparentIff(store: Store, asks: seq<Ask>)
    ensures Consistent(store, asks) <==> forall luck :: |luck| == |asks| ==> Transparent(store, asks, luck)
  {
    if Consistent(store, asks) {
      forall luck | |luck| == |asks| ensures Transparent(store, asks, luck) {
        ConsistentIsTransparent(store, asks, luck);
      }
    } else {
      var luck := InconsistentShows(store, asks);
    }
  }

  /** In particular it is transparent over an empty store when one function of the key
      gives every answer, and no answer contains a NUL. */
  lemma FunctionalBackend(asks: seq<Ask>, luck: seq<Luck>, f: string -> Option<string>)
    requires |asks| == |luck|
    requires forall i :: 0 <= i < |asks| && asks[i].key.Some? ==> asks[i].answer == f(asks[i].key.value)
    requires forall i :: 0 <= i < |asks| && asks[i].answer.Some? ==> NulFree(asks[i].answer.value)
    ensures Transparent(map[], asks, luck)
  {
    ConsistentIsTransparent(map[], asks, luck);
  }

  /** Two requests with one key and different answers, such as two documents with the same
      uuid and different contents: the second is given the answer of the first. */
  lemma SameKeyShows(k: string, a: string, b: string)
    requires NulFree(a) && a != b
    ensures var asks, luck := [Ask(Some(k), Some(a)), Ask(Some(k), Some(b))], [Luck(true, true), Luck(true, true)];
            && !Consistent(map[], asks) && !Transparent(map[], asks, luck)
            && ReplyAt(map[], asks, luck, 1) == Some(a) && Uncached(asks[1]) == Some(b)
  {
    var asks, luck := [Ask(Some(k), Some(a)), Ask(Some(k), Some(b))], [Luck(true, true), Luck(true, true)];
    assert StoreAt(map[], asks, luck, 0) == map[];
    assert StoreAt(map[], asks, luck, 1) == map[k := a];
    assert ReplyAt(map[], asks, luck, 1) == Some(a);
    if Consistent(map[], asks) { ConsistentIsTransparent(map[], asks, luck); }
  }

  // ---- documents ----

  /** What the backend is asked about: the uuid of a document, or else its content. */
  datatype Subject = ByUuid(text: string) | ByContent(text: string)

  function SubjectOf(doc: Doc): Option<Subject> {
    if doc.uuid.Some? then Some(ByUuid(CStr(doc.uuid.value)))
    else if doc.content.Some? then Some(ByContent(CStr(doc.content.value)))
    else None
  }

  ghost predicate Asks(doc: Option<Doc>, md5: string -> string, subject: Subject) {
    doc.Some? && KeyOf(doc, md5).Some? && SubjectOf(doc.value) == Some(subject)
  }

  /** Over the documents seen, no two subjects share a key: no two contents have one digest,
      and no digest is also a uuid. */
  ghost predicate KeysApart(docs: seq<Option<Doc>>, md5: string -> string) {
    forall i, j, a, b ::
      0 <= i < |docs| && 0 <= j < |docs| && Asks(docs[i], md5, a) && Asks(docs[j], md5, b) && a != b ==>
      KeyFor(a, md5) != KeyFor(b, md5)
  }

  function KeyFor(subject: Subject, md5: string -> string): string {
    if subject.ByUuid? then subject.text else md5(subject.text)
  }

  lemma KeyIsFor(doc: Option<Doc>, md5: string -> string)
    requires KeyOf(doc, md5).Some?
    ensures doc.Some? && SubjectOf(doc.value).Some? && KeyOf(doc, md5) == Some(KeyFor(SubjectOf(doc.value).value, md5))
    ensures Asks(doc, md5, SubjectOf(doc.value).value)
  {
  }

  lemma KeyDecides(docs: seq<Option<Doc>>, md5: string -> string, i: nat, j: nat)
    requires KeysApart(docs, md5) && i < |docs| && j < |docs|
    requires KeyOf(docs[i], md5).Some? && KeyOf(docs[i], md5) == KeyOf(docs[j], md5)
    ensures docs[i].Some? && docs[j].Some? && SubjectOf(docs[i].value).Some?
    ensures SubjectOf(docs[i].value) == SubjectOf(docs[j].value)
  {
    hide KeyOf, SubjectOf, KeyFor, Asks;
    KeyIsFor(docs[i], md5);
    KeyIsFor(docs[j], md5);
  }

  function AsksOf(docs: seq<Option<Doc>>, md5: string -> string, answers: seq<Option<string>>): seq<Ask>
    requires |docs| == |answers|
  {
    seq(|docs|, i requires 0 <= i < |docs| => Ask(KeyOf(docs[i], md5), answers[i]))
  }

  /** If the backend's answers depend on the uuid, or without one on the content, contain
      no NUL, and no two subjects share a key, then starting with an empty store no
      document ever gets another reply than without the cache. */
  lemma DocumentsTransparent(docs: seq<Option<Doc>>, md5: string -> string, answers: seq<Option<string>>,
                             backend: Subject -> Option<string>, luck: seq<Luck>)
    requires |docs| == |answers| == |luck| && KeysApart(docs, md5)
    requires forall i :: 0 <= i < |docs| && KeyOf(docs[i], md5).Some? ==>
               answers[i] == backend(SubjectOf(docs[i].value).value)
    requires forall i :: 0 <= i < |docs| && answers[i].Some? ==> NulFree(answers[i].value)
    ensures Transparent(map[], AsksOf(docs, md5, answers), luck)
  {
    var asks := AsksOf(docs, md5, answers);
    forall i, j | 0 <= i < j < |asks| && asks[i].key.Some? && asks[i].answer.Some?
      ensures Suits(asks[j], asks[i].key.value, asks[i].answer.value)
    {
      if asks[j].key == asks[i].key { KeyDecides(docs, md5, i, j); }
    }
    ConsistentIsTransparent(map[], asks, luck);
  }

  lemma SameUuidShows(uuid: string, x: string, y: string, md5: string -> string, a: string, b: string)
    requires NulFree(a) && a != b
    ensures var first, second := Doc(Some(ACCESS_ID), Some(uuid), Some(x)), Doc(Some(ACCESS_ID), Some(uuid), Some(y));
            var asks := [Ask(KeyOf(Some(first), md5), Some(a)), Ask(KeyOf(Some(second), md5), Some(b))];
            !Consistent(map[], asks) && !Transparent(map[], asks, [Luck(true, true), Luck(true, true)])
  {
    assert NulFree(ACCESS_ID) && CStr(ACCESS_ID) == ACCESS_ID;
    SameKeyShows(CStr(uuid), a, b);
  }

  // ---- admission ----

  /** A document that is not refused: its access id is the one expected, and it names a uuid
      or a content. */
  predicate Admitted(doc: Doc) {
    && doc.accessId.Some? && CStr(doc.accessId.value) == ACCESS_ID
    && (doc.uuid.Some? || doc.content.Some?)
  }

  /** What a client is given, and what the store is left with, for every document: nothing,
      and the store as it was, if it is refused; else what is stored under its uuid, or
      without one under the digest of its content, or the backend's answer, which is stored
      there. */
  lemma ReplyTable(store: Store, doc: Option<Doc>, md5: string -> string, backend: Option<string>, l: Luck)
    ensures var (reply, after) := Handle(store, Ask(KeyOf(doc, md5), backend), l);
            if doc.None? || !Admitted(doc.value) then reply == None && after == store
            else Given(store, if doc.value.uuid.Some? then CStr(doc.value.uuid.value) else md5(CStr(doc.value.content.value)),
                       backend, l, reply, after)
    ensures KeyOf(doc, md5).None? <==> doc.None? || !Admitted(doc.value)
  {
  }

  /** A request with key k: a hit is given as it is stored, anything else as the backend
      answers, and then stored if that succeeds. */
  predicate Given(store: Store, k: string, backend: Option<string>, l: Luck, reply: Option<string>, after: Store) {
    if l.getOk && k in store then reply == Some(CStr(store[k])) && after == store
    else
      && reply == backend
      && after == if backend.Some? && l.setApplied then store[k := CStr(backend.value)] else store
  }

  // ---- the program ----

  class RedisClient {
    var store: Store

    method GetValue(key: string, ok: bool) returns (val: Option<string>)
      ensures val == if ok && key in store then Some(CStr(store[key])) else None
    {
      val := None;
      if ok && key in store { val := Some(CStr(store[key])); }
    }

    method SetValue(key: string, val: string, applied: bool)
      modifies this
      ensures store == if applied then old(store)[key := CStr(val)] else old(store)
    {
      if applied { store := store[key := CStr(val)]; }
    }
  }

  /** analyse_handler: the text for the reply, or None for `return false`. The document
      parsed from the body, the digest, the backend's answer and Redis' luck are given. */
  method AnalyseHandler(redis: RedisClient, doc: Option<Doc>, md5: string -> string, backend: Option<string>, l: Luck)
    returns (text: Option<string>)
    modifies redis
    ensures (text, redis.store) == Handle(old(redis.store), Ask(KeyOf(doc, md5), backend), l)
    ensures doc.None? || !Admitted(doc.value) ==> text == None && redis.store == old(redis.store)
    ensures doc.Some? && Admitted(doc.value) ==>
              Given(old(redis.store),
                    if doc.value.uuid.Some? then CStr(doc.value.uuid.value) else md5(CStr(doc.value.content.value)),
                    backend, l, text, redis.store)
  {
    if doc.None? || doc.value.accessId.None? || CStr(doc.value.accessId.value) != ACCESS_ID { return None; }
    var key;
    if doc.value.uuid.Some? {
      key := CStr(doc.value.uuid.value);
    } else if doc.value.content.Some? {
      key := md5(CStr(doc.value.content.value));
    } else {
      return None;
    }
    var hit := redis.GetValue(key, l.getOk);
    if hit.Some? { return hit; }
    if backend.None? { return None; }
    redis.SetValue(key, backend.value, l.setApplied);
    return backend;
  }
}
