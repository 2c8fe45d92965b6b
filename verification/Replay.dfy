/** Resubmissions over whole histories of submissions and purges that do not overlap: when the
    reply names the stored record, and when it does not. */
module Replay {
  import opened Wrappers
  import opened Ingestion

  datatype Event = Submission(a: Arrival) | PurgeAt(now: int)

  function Time(e: Event): int { if e.Submission? then e.a.now else e.now }

  function Apply(t: Tables, e: Event, ttl: nat): Tables {
    match e
    case Submission(a) => Submit(t, a, ttl).t
    case PurgeAt(now) => t.(cache := Purged(t.cache, now))
  }

  function Run(t: Tables, events: seq<Event>, ttl: nat): Tables
    decreases |events|
  {
    if events == [] then t else Run(Apply(t, events[0], ttl), events[1..], ttl)
  }

  /** Events in order of time, all replies cached when there is something to cache. */
  predicate History(now: int, events: seq<Event>)
    decreases |events|
  {
    events == [] ||
    (now <= Time(events[0]) && (events[0].Submission? ==> !events[0].a.setFails) && History(Time(events[0]), events[1..]))
  }

  function LastTime(now: int, events: seq<Event>): int
    decreases |events|
  {
    if events == [] then now else LastTime(Time(events[0]), events[1..])
  }

  // ---------------------------------------------------------------- invariant

  /** Until its lifetime is over, a stored record's id is cached; a cached row with the record's id
      expires with it. */
  predicate Remembered(t: Tables, r: Stored, now: int, ttl: nat) {
    && r.storedAt <= now && r.internalId < t.issued
    && (now < r.storedAt + ttl ==> r.key in t.cache && t.cache[r.key] == CacheRow(r.internalId, r.storedAt + ttl))
    && (r.key in t.cache && t.cache[r.key].internalId == r.internalId ==> t.cache[r.key].expiresAt == r.storedAt + ttl)
  }

  ghost predicate AllRemembered(t: Tables, now: int, ttl: nat) {
    forall i :: 0 <= i < |t.store| ==> Remembered(t, t.store[i], now, ttl)
  }

  /** Cached ids were issued, and none belongs to a record of another key. */
  ghost predicate IdsOwned(t: Tables) {
    && (forall k :: k in t.cache ==> t.cache[k].internalId < t.issued)
    && (forall k, i :: k in t.cache && 0 <= i < |t.store| && t.store[i].internalId == t.cache[k].internalId ==>
      t.store[i].key == k)
  }

  ghost predicate Consistent(t: Tables, now: int, ttl: nat) {
    UniqueKeys(t.store) && CacheBacked(t) && AllRemembered(t, now, ttl) && IdsOwned(t)
  }

  lemma InsertUnique(store: seq<Stored>, r: Stored)
    requires UniqueKeys(store)
    ensures UniqueKeys(InsertRecord(store, r))
  {}

  lemma SubmitRemembers(t: Tables, now: int, a: Arrival, ttl: nat)
    requires Consistent(t, now, ttl) && now <= a.now && !a.setFails
    ensures AllRemembered(Submit(t, a, ttl).t, a.now, ttl)
  {
    var t' := Submit(t, a, ttl).t;
    if a.req.key in t.cache { assert HasKey(t.store, a.req.key); }
    forall i | 0 <= i < |t'.store| ensures Remembered(t', t'.store[i], a.now, ttl) {
      if i < |t.store| { assert Remembered(t, t.store[i], now, ttl); }
    }
  }

  lemma SubmitOwns(t: Tables, now: int, a: Arrival, ttl: nat)
    requires Consistent(t, now, ttl)
    ensures IdsOwned(Submit(t, a, ttl).t)
  {}

  lemma SubmitConsistent(t: Tables, now: int, a: Arrival, ttl: nat)
    requires Consistent(t, now, ttl) && now <= a.now && !a.setFails
    ensures Consistent(Submit(t, a, ttl).t, a.now, ttl)
  {
    InsertUnique(t.store, Stored(t.issued, a.req.key, a.req.body, a.now));
    SubmitBacked(t, a, ttl);
    SubmitRemembers(t, now, a, ttl);
    SubmitOwns(t, now, a, ttl);
  }

  lemma PurgeConsistent(t: Tables, now: int, later: int, ttl: nat)
    requires Consistent(t, now, ttl) && now <= later
    ensures Consistent(t.(cache := Purged(t.cache, later)), later, ttl)
  {}

  lemma {:induction false} HistoryConsistent(t: Tables, now: int, events: seq<Event>, ttl: nat)
    requires Consistent(t, now, ttl) && History(now, events)
    ensures Consistent(Run(t, events, ttl), LastTime(now, events), ttl)
    decreases |events|
  {
    if events != [] {
      match events[0] {
        case Submission(a) => SubmitConsistent(t, now, a, ttl);
        case PurgeAt(later) => PurgeConsistent(t, now, later, ttl);
      }
      HistoryConsistent(Apply(t, events[0], ttl), Time(events[0]), events[1..], ttl);
    }
  }

  // ---------------------------------------------------------------- which id a success names

  function RecordFor(store: seq<Stored>, key: Key): (r: Stored)
    requires !Absent(store, key)
    ensures r in store && r.key == key
  {
    if store[0].key == key then store[0] else RecordFor(store[1..], key)
  }

  lemma UniqueRecord(store: seq<Stored>, key: Key, i: nat)
    requires UniqueKeys(store) && i < |store| && store[i].key == key
    ensures !Absent(store, key) && RecordFor(store, key) == store[i]
  {}

  /** The key is new, or its cached reply can be read and has not expired. */
  predicate Recalled(t: Tables, a: Arrival, ttl: nat) {
    Absent(t.store, a.req.key) || (!a.readFails && a.now < RecordFor(t.store, a.req.key).storedAt + ttl)
  }

  /** A success names the stored record of the key exactly when the key is new or its cached reply
      is readable and not expired; otherwise it names an id under which nothing is stored. */
  lemma SuccessNamesStored(t: Tables, now: int, a: Arrival, ttl: nat)
    requires Consistent(t, now, ttl) && now <= a.now && !a.setFails
    requires Submit(t, a, ttl).reply.Success?
    ensures var done := Submit(t, a, ttl);
      && !Absent(done.t.store, a.req.key)
      && (done.reply.internalId == RecordFor(done.t.store, a.req.key).internalId <==> Recalled(t, a, ttl))
      && (!Recalled(t, a, ttl) ==> forall i :: 0 <= i < |done.t.store| ==> done.t.store[i].internalId != done.reply.internalId)
  {
    var done, key := Submit(t, a, ttl), a.req.key;
    SubmitConsistent(t, now, a, ttl);
    SubmitBacked(t, a, ttl);
    HasKeyIff(done.t.store, key);
    if Absent(t.store, key) {
      NewKeyStored(t, a, ttl);
    } else {
      var i :| 0 <= i < |t.store| && t.store[i].key == key;
      assert Remembered(t, t.store[i], now, ttl);
      UniqueRecord(t.store, key, i);
      KnownKey(t, a, ttl);
    }
  }

  lemma NewKeyStored(t: Tables, a: Arrival, ttl: nat)
    requires CacheBacked(t) && UniqueKeys(t.store) && Absent(t.store, a.req.key) && Submit(t, a, ttl).reply.Success?
    ensures var done := Submit(t, a, ttl);
      !Absent(done.t.store, a.req.key) && done.reply.internalId == RecordFor(done.t.store, a.req.key).internalId
  {
    var done, key := Submit(t, a, ttl), a.req.key;
    HasKeyIff(t.store, key);
    InsertUnique(t.store, Stored(t.issued, key, a.req.body, a.now));
    assert done.t.store[|t.store|].key == key;
    UniqueRecord(done.t.store, key, |t.store|);
  }

  /** A stored key leaves the record table alone. */
  lemma KnownKey(t: Tables, a: Arrival, ttl: nat)
    requires !Absent(t.store, a.req.key)
    ensures Submit(t, a, ttl).t.store == t.store
  {}

  /** Over every history from empty tables. */
  lemma SameIdReplay(start: int, events: seq<Event>, a: Arrival, ttl: nat)
    requires History(start, events) && LastTime(start, events) <= a.now && !a.setFails
    requires Submit(Run(Tables([], map[], 0), events, ttl), a, ttl).reply.Success?
    ensures var t := Run(Tables([], map[], 0), events, ttl);
      var done := Submit(t, a, ttl);
      && !Absent(done.t.store, a.req.key)
      && (done.reply.internalId == RecordFor(done.t.store, a.req.key).internalId <==> Recalled(t, a, ttl))
      && (!Recalled(t, a, ttl) ==> forall i :: 0 <= i < |done.t.store| ==> done.t.store[i].internalId != done.reply.internalId)
  {
    var empty := Tables([], map[], 0);
    HistoryConsistent(empty, start, events, ttl);
    SuccessNamesStored(Run(empty, events, ttl), LastTime(start, events), a, ttl);
  }

  // ---------------------------------------------------------------- the store over a history

  function Arrivals(events: seq<Event>): seq<Arrival> {
    if events == [] then []
    else (if events[0].Submission? then [events[0].a] else []) + Arrivals(events[1..])
  }

  lemma PurgeBacked(t: Tables, now: int)
    requires CacheBacked(t)
    ensures CacheBacked(t.(cache := Purged(t.cache, now)))
  {}

  lemma {:induction false} FoldJoins(entries: seq<Entry>, a: seq<Arrival>, b: seq<Arrival>)
    ensures FirstAccepted(entries, a + b) == FirstAccepted(FirstAccepted(entries, a), b)
    decreases |b|
  {
    if b == [] {
      assert a + b == a;
    } else {
      var n := |b| - 1;
      assert (a + b)[..|a + b| - 1] == a + b[..n];
      FoldJoins(entries, a, b[..n]);
    }
  }

  lemma FoldOne(t: Tables, a: Arrival, ttl: nat)
    requires CacheBacked(t)
    ensures Entries(Submit(t, a, ttl).t.store) == FirstAccepted(Entries(t.store), [a])
  {
    SubmitStores(t, a, ttl);
    assert [a][..0] == [];
    assert FirstAccepted(Entries(t.store), [a][..0]) == Entries(t.store);
  }

  /** Whatever the purges, expiries and failures of the cache on the way: the record table is the
      first-accepted-wins fold of the requests. */
  lemma {:induction false} HistoryStore(t: Tables, events: seq<Event>, ttl: nat)
    requires CacheBacked(t)
    ensures CacheBacked(Run(t, events, ttl))
    ensures Entries(Run(t, events, ttl).store) == FirstAccepted(Entries(t.store), Arrivals(events))
    decreases |events|
  {
    if events != [] {
      var next := Apply(t, events[0], ttl);
      match events[0] {
        case Submission(a) =>
          SubmitBacked(t, a, ttl);
          FoldOne(t, a, ttl);
          FoldJoins(Entries(t.store), [a], Arrivals(events[1..]));
        case PurgeAt(now) =>
          PurgeBacked(t, now);
          assert Arrivals(events) == Arrivals(events[1..]);
      }
      HistoryStore(next, events[1..], ttl);
    }
  }
}
