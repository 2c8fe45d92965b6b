/** Idempotent ingestion, one submission at a time (services/ingestion/internal/server/server.go,
    idempotency/idempotency.go, storage/storage.go). */
module Ingestion {
  import opened Wrappers

  type Key = nat   // idempotency keys and record bodies are only compared
  type Body = nat

  /** `valid`: the validation and normalization pipeline accepts the record. */
  datatype Request = Request(key: Key, body: Body, valid: bool)

  datatype Stored = Stored(internalId: nat, key: Key, body: Body, storedAt: int)

  datatype CacheRow = CacheRow(internalId: nat, expiresAt: int)

  datatype Reply = Success(internalId: nat) | Rejected | Limited | StorageError

  // ---------------------------------------------------------------- statements on the two tables

  ghost predicate HasKey(store: seq<Stored>, key: Key) {
    exists i :: 0 <= i < |store| && store[i].key == key
  }

  ghost predicate UniqueKeys(store: seq<Stored>) {
    forall i, j :: 0 <= i < j < |store| ==> store[i].key != store[j].key
  }

  predicate Absent(store: seq<Stored>, key: Key) { forall i :: 0 <= i < |store| ==> store[i].key != key }

  /** INSERT … ON CONFLICT (idempotency_key) DO NOTHING. */
  function InsertRecord(store: seq<Stored>, r: Stored): seq<Stored> {
    if Absent(store, r.key) then store + [r] else store
  }

  /** The id cached for the key, unless the row has expired. */
  function Lookup(cache: map<Key, CacheRow>, key: Key, now: int): Option<nat> {
    if key in cache && cache[key].expiresAt > now then Some(cache[key].internalId) else None
  }

  /** INSERT … ON CONFLICT DO NOTHING: a row that is still there, even expired, stays. */
  function Remember(cache: map<Key, CacheRow>, key: Key, row: CacheRow): map<Key, CacheRow> {
    if key in cache then cache else cache[key := row]
  }

  function Purged(cache: map<Key, CacheRow>, now: int): map<Key, CacheRow> {
    map k | k in cache && cache[k].expiresAt > now :: cache[k]
  }

  // ---------------------------------------------------------------- one submission

  /** `issued` counts the internal ids handed out so far; the next one is fresh. */
  datatype Tables = Tables(store: seq<Stored>, cache: map<Key, CacheRow>, issued: nat)

  /** A request, its time, and what goes wrong with the services it needs. */
  datatype Arrival = Arrival(
    req: Request,
    now: int,
    limited: bool,       // over the source's rate limit
    readFails: bool,     // the cache cannot be read: carry on without it
    insertFails: bool,   // the record cannot be stored
    setFails: bool)      // the reply cannot be cached: ignored

  datatype Submitted = Submitted(t: Tables, reply: Reply)

  function Submit(t: Tables, a: Arrival, ttl: nat): Submitted {
    if a.limited then Submitted(t, Limited)
    else if !a.readFails && Lookup(t.cache, a.req.key, a.now).Some? then
      Submitted(t, Success(Lookup(t.cache, a.req.key, a.now).value))
    else
      var id, named := t.issued, t.(issued := t.issued + 1);
      if !a.req.valid then Submitted(named, Rejected)
      else if a.insertFails then Submitted(named, StorageError)
      else
        var stored := named.(store := InsertRecord(t.store, Stored(id, a.req.key, a.req.body, a.now)));
        Submitted(if a.setFails then stored
                  else stored.(cache := Remember(t.cache, a.req.key, CacheRow(id, a.now + ttl))),
                  Success(id))
  }

  /** The cache can be read and has a row for the key that has not expired. */
  predicate Recognised(t: Tables, a: Arrival) {
    !a.readFails && a.req.key in t.cache && a.now < t.cache[a.req.key].expiresAt
  }

  /** The reply, case by case; whether it could be cached plays no part. */
  ghost predicate IsReply(t: Tables, a: Arrival, reply: Reply) {
    && (a.limited <==> reply == Limited)
    && (!a.limited && Recognised(t, a) ==> reply == Success(t.cache[a.req.key].internalId))
    && (!a.limited && !Recognised(t, a) ==>
      && (reply == Rejected <==> !a.req.valid)
      && (reply == StorageError <==> a.req.valid && a.insertFails)
      && (reply.Success? <==> a.req.valid && !a.insertFails) && (reply.Success? ==> reply.internalId == t.issued))
  }

  /** The tables after it: an id is spent on every submission not recognised, a record is stored for a new key
      that is accepted, and its reply is cached unless that fails or a row is there. */
  ghost predicate IsEffect(t: Tables, a: Arrival, ttl: nat, u: Tables) {
    var unknown := !a.limited && !Recognised(t, a);
    var accepted := unknown && a.req.valid && !a.insertFails;
    var first := forall i :: 0 <= i < |t.store| ==> t.store[i].key != a.req.key;
    && u.issued == (if unknown then t.issued + 1 else t.issued)
    && u.store == (if accepted && first then t.store + [Stored(t.issued, a.req.key, a.req.body, a.now)] else t.store)
    && u.cache == if accepted && !a.setFails && a.req.key !in t.cache
                  then t.cache[a.req.key := CacheRow(t.issued, a.now + ttl)] else t.cache
  }

  lemma SubmitIs(t: Tables, a: Arrival, ttl: nat)
    ensures IsReply(t, a, Submit(t, a, ttl).reply) && IsEffect(t, a, ttl, Submit(t, a, ttl).t)
  {}

  function SubmitAll(t: Tables, arrivals: seq<Arrival>, ttl: nat): Tables
    decreases |arrivals|
  {
    if arrivals == [] then t
    else Submit(SubmitAll(t, arrivals[..|arrivals| - 1], ttl), arrivals[|arrivals| - 1], ttl).t
  }

  /** How many of the arrivals are answered with success. */
  function Successes(t: Tables, arrivals: seq<Arrival>, ttl: nat): (n: nat)
    ensures n <= |arrivals|
    decreases |arrivals|
  {
    if arrivals == [] then 0 else
      var before := arrivals[..|arrivals| - 1];
      Successes(t, before, ttl)
        + if Submit(SubmitAll(t, before, ttl), arrivals[|arrivals| - 1], ttl).reply.Success? then 1 else 0
  }

  /** One submission after the others, and one success more if its reply is one. */
  lemma BulkStep(t: Tables, arrivals: seq<Arrival>, a: Arrival, ttl: nat) returns (reply: Reply)
    ensures SubmitAll(t, [], ttl) == t && Successes(t, [], ttl) == 0
    ensures IsReply(SubmitAll(t, arrivals, ttl), a, reply)
    ensures IsEffect(SubmitAll(t, arrivals, ttl), a, ttl, SubmitAll(t, arrivals + [a], ttl))
    ensures Successes(t, arrivals + [a], ttl) == Successes(t, arrivals, ttl) + if reply.Success? then 1 else 0
  {
    assert (arrivals + [a])[..|arrivals|] == arrivals;
    reply := Submit(SubmitAll(t, arrivals, ttl), a, ttl).reply;
    SubmitIs(SubmitAll(t, arrivals, ttl), a, ttl);
  }

  // ---------------------------------------------------------------- the services

  class RecordTable {
    var rows: seq<Stored>

    constructor ()
      ensures rows == []
    {
      rows := [];
    }

    method Insert(r: Stored)
      modifies this
      ensures rows == InsertRecord(old(rows), r)
      ensures if exists i :: 0 <= i < |old(rows)| && old(rows)[i].key == r.key
              then rows == old(rows) else rows == old(rows) + [r]
    {
      var found := false;
      for i := 0 to |rows|
        invariant rows == old(rows)
        invariant found <==> !Absent(rows[..i], r.key)
      {
        if rows[i].key == r.key { found := true; }
        assert rows[..i + 1] == rows[..i] + [rows[i]];
      }
      assert rows[..|rows|] == rows;
      if !found { rows := rows + [r]; }
    }
  }

  class IdempotencyTable {
    var rows: map<Key, CacheRow>
    const ttl: nat

    constructor (ttl: nat)
      ensures rows == map[] && this.ttl == ttl
    {
      rows := map[];
      this.ttl := ttl;
    }

    method Get(key: Key, now: int) returns (id: Option<nat>)
      ensures id == Lookup(rows, key, now)
      ensures id.Some? <==> key in rows && now < rows[key].expiresAt
      ensures id.Some? ==> id.value == rows[key].internalId
    {
      id := if key in rows && now < rows[key].expiresAt then Some(rows[key].internalId) else None;
    }

    method Set(key: Key, id: nat, now: int)
      modifies this
      ensures rows == Remember(old(rows), key, CacheRow(id, now + ttl))
      ensures rows == if key in old(rows) then old(rows) else old(rows)[key := CacheRow(id, now + ttl)]
    {
      if key !in rows { rows := rows[key := CacheRow(id, now + ttl)]; }
    }

    /** Delete the expired rows and report how many there were. */
    method Purge(now: int) returns (deleted: nat)
      modifies this
      ensures rows == Purged(old(rows), now)
      ensures forall k :: k in rows <==> k in old(rows) && now < old(rows)[k].expiresAt
      ensures forall k :: k in rows ==> rows[k] == old(rows)[k]
      ensures deleted == |old(rows)| - |rows|
    {
      ghost var was := rows;
      var left := rows.Keys;
      deleted := 0;
      while left != {}
        invariant left <= rows.Keys <= was.Keys
        invariant forall k :: k in rows ==> rows[k] == was[k]
        invariant forall k :: k in was && k !in left ==> (k in rows <==> was[k].expiresAt > now)
        invariant forall k :: k in left ==> k in rows
        invariant deleted == |was| - |rows|
        decreases left
      {
        var k :| k in left;
        left := left - {k};
        if rows[k].expiresAt <= now {
          assert (rows - {k}).Keys == rows.Keys - {k};
          rows := rows - {k};
          deleted := deleted + 1;
        }
      }
      assert rows == Purged(was, now);
    }
  }

  class IngestionServer {
    const store: RecordTable
    const idempotency: IdempotencyTable
    var issued: nat

    constructor (store: RecordTable, idempotency: IdempotencyTable)
      ensures this.store == store && this.idempotency == idempotency && issued == 0
    {
      this.store, this.idempotency, issued := store, idempotency, 0;
    }

    ghost function Contents(): Tables
      reads this, store, idempotency
    {
      Tables(store.rows, idempotency.rows, issued)
    }

    method NewId() returns (id: nat)
      modifies this
      ensures id == old(issued) && issued == id + 1
    {
      id, issued := issued, issued + 1;
    }

    method SubmitRecord(a: Arrival) returns (reply: Reply)
      modifies this, store, idempotency
      ensures Submitted(Contents(), reply) == Submit(old(Contents()), a, idempotency.ttl)
      ensures IsReply(old(Contents()), a, reply) && IsEffect(old(Contents()), a, idempotency.ttl, Contents())
    {
      SubmitIs(Contents(), a, idempotency.ttl);
      if a.limited { return Limited; }
      if !a.readFails {
        var cached := idempotency.Get(a.req.key, a.now);
        if cached.Some? { return Success(cached.value); }
      }
      var id := NewId();
      if !a.req.valid { return Rejected; }
      if a.insertFails { return StorageError; }
      store.Insert(Stored(id, a.req.key, a.req.body, a.now));
      if !a.setFails { idempotency.Set(a.req.key, id, a.now); }
      return Success(id);
    }

    /** One submission per streamed request; the summary counts them. */
    method BulkStreamIngest(arrivals: seq<Arrival>) returns (processed: nat, failed: nat)
      modifies this, store, idempotency
      ensures Contents() == SubmitAll(old(Contents()), arrivals, idempotency.ttl)
      ensures processed == Successes(old(Contents()), arrivals, idempotency.ttl)
      ensures processed + failed == |arrivals|
    {
      processed, failed := 0, 0;
      for i := 0 to |arrivals|
        invariant Contents() == SubmitAll(old(Contents()), arrivals[..i], idempotency.ttl)
        invariant processed == Successes(old(Contents()), arrivals[..i], idempotency.ttl)
        invariant processed + failed == i
      {
        assert arrivals[..i + 1][..i] == arrivals[..i];
        var reply := SubmitRecord(arrivals[i]);
        if reply.Success? { processed := processed + 1; } else { failed := failed + 1; }
      }
      assert arrivals[..|arrivals|] == arrivals;
    }
  }

  // ---------------------------------------------------------------- the store as a fold

  datatype Entry = Entry(key: Key, body: Body)

  function Entries(store: seq<Stored>): (e: seq<Entry>)
    ensures |e| == |store| && forall i :: 0 <= i < |e| ==> e[i] == Entry(store[i].key, store[i].body)
  {
    seq(|store|, i requires 0 <= i < |store| => Entry(store[i].key, store[i].body))
  }

  /** The request gets as far as the record table, if the cache does not answer it first. */
  predicate Accepted(a: Arrival) { !a.limited && a.req.valid && !a.insertFails }

  /** The first accepted arrival of every new key, in order of arrival; no cache, no clock. */
  function FirstAccepted(entries: seq<Entry>, arrivals: seq<Arrival>): seq<Entry>
    decreases |arrivals|
  {
    if arrivals == [] then entries else
      var before := FirstAccepted(entries, arrivals[..|arrivals| - 1]);
      var last := arrivals[|arrivals| - 1];
      if Accepted(last) && forall i :: 0 <= i < |before| ==> before[i].key != last.req.key
      then before + [Entry(last.req.key, last.req.body)] else before
  }

  /** Every cached key has a stored record. */
  ghost predicate CacheBacked(t: Tables) { forall k :: k in t.cache ==> HasKey(t.store, k) }

  lemma HasKeyIff(store: seq<Stored>, key: Key)
    ensures HasKey(store, key) <==> !Absent(store, key)
  {}

  lemma InsertHasKeys(store: seq<Stored>, r: Stored)
    ensures HasKey(InsertRecord(store, r), r.key)
    ensures forall k :: HasKey(store, k) ==> HasKey(InsertRecord(store, r), k)
  {
    var after := InsertRecord(store, r);
    if Absent(store, r.key) { assert after[|store|].key == r.key; }
    forall k | HasKey(store, k) ensures HasKey(after, k) {
      var i :| 0 <= i < |store| && store[i].key == k;
      assert after[i].key == k;
    }
  }

  lemma SubmitBacked(t: Tables, a: Arrival, ttl: nat)
    requires CacheBacked(t)
    ensures CacheBacked(Submit(t, a, ttl).t)
    ensures Submit(t, a, ttl).reply.Success? ==> HasKey(Submit(t, a, ttl).t.store, a.req.key)
  {
    InsertHasKeys(t.store, Stored(t.issued, a.req.key, a.req.body, a.now));
  }

  /** What the record table ends up with does not depend on the cache or on expiry: it is the fold of
      the accepted requests in which the first one per key wins. */
  lemma {:induction false} StoreIsFirstAccepted(t: Tables, arrivals: seq<Arrival>, ttl: nat)
    requires CacheBacked(t)
    ensures CacheBacked(SubmitAll(t, arrivals, ttl))
    ensures Entries(SubmitAll(t, arrivals, ttl).store) == FirstAccepted(Entries(t.store), arrivals)
    decreases |arrivals|
  {
    if arrivals != [] {
      var n := |arrivals| - 1;
      StoreIsFirstAccepted(t, arrivals[..n], ttl);
      var before := SubmitAll(t, arrivals[..n], ttl);
      SubmitBacked(before, arrivals[n], ttl);
      SubmitStores(before, arrivals[n], ttl);
    }
  }

  lemma SubmitStores(t: Tables, a: Arrival, ttl: nat)
    requires CacheBacked(t)
    ensures var keep := Accepted(a) && Absent(t.store, a.req.key);
      Entries(Submit(t, a, ttl).t.store) == Entries(t.store) + if keep then [Entry(a.req.key, a.req.body)] else []
    ensures Absent(t.store, a.req.key) <==> forall i :: 0 <= i < |Entries(t.store)| ==> Entries(t.store)[i].key != a.req.key
  {}

  /** Arrival i is the first accepted one of its key, and `e` is what it stores. */
  ghost predicate Opens(arrivals: seq<Arrival>, i: int, e: Entry) {
    0 <= i < |arrivals| && IsFirstAccepted(arrivals, i) && e == Entry(arrivals[i].req.key, arrivals[i].req.body)
  }

  /** The fold, read off position by position: its entries are those of the arrivals that are the
      first accepted ones of their keys. */
  lemma {:induction false} FirstAcceptedWins(arrivals: seq<Arrival>, e: Entry)
    ensures e in FirstAccepted([], arrivals) <==> exists i :: Opens(arrivals, i, e)
    decreases |arrivals|
  {
    if arrivals == [] { return; }
    var n := |arrivals| - 1;
    FirstAcceptedWins(arrivals[..n], e);
    NewKeyIsFirst(arrivals);
    forall i: nat | i < n ensures Opens(arrivals[..n], i, e) <==> Opens(arrivals, i, e) {
      FirstAcceptedPrefix(arrivals, i);
    }
    assert Opens(arrivals, n, e) <==> IsFirstAccepted(arrivals, n) && e == Entry(arrivals[n].req.key, arrivals[n].req.body);
    assert forall i :: Opens(arrivals[..n], i, e) ==> 0 <= i < n;
    assert forall i :: Opens(arrivals, i, e) ==> 0 <= i <= n;
    hide Opens, IsFirstAccepted, Accepted;
  }

  lemma FirstAcceptedPrefix(arrivals: seq<Arrival>, i: nat)
    requires i < |arrivals| - 1
    ensures IsFirstAccepted(arrivals[..|arrivals| - 1], i) <==> IsFirstAccepted(arrivals, i)
  {
    var before := arrivals[..|arrivals| - 1];
    assert forall j :: 0 <= j <= i ==> before[j] == arrivals[j];
  }

  ghost predicate IsFirstAccepted(arrivals: seq<Arrival>, i: nat)
    requires i < |arrivals|
  {
    Accepted(arrivals[i]) && forall j :: 0 <= j < i && Accepted(arrivals[j]) ==> arrivals[j].req.key != arrivals[i].req.key
  }

  ghost predicate KeyAccepted(arrivals: seq<Arrival>, key: Key) {
    exists j :: 0 <= j < |arrivals| && Accepted(arrivals[j]) && arrivals[j].req.key == key
  }

  lemma KeyAcceptedStep(arrivals: seq<Arrival>, key: Key)
    requires arrivals != []
    ensures var n := |arrivals| - 1;
      KeyAccepted(arrivals, key) <==>
        KeyAccepted(arrivals[..n], key) || (Accepted(arrivals[n]) && arrivals[n].req.key == key)
  {}

  ghost predicate KeyIn(entries: seq<Entry>, key: Key) {
    exists i :: 0 <= i < |entries| && entries[i].key == key
  }

  lemma KeyInStep(entries: seq<Entry>, e: Entry, key: Key)
    ensures KeyIn(entries + [e], key) <==> KeyIn(entries, key) || e.key == key
  {
    assert (entries + [e])[|entries|] == e;
    if KeyIn(entries, key) {
      var i :| 0 <= i < |entries| && entries[i].key == key;
      assert (entries + [e])[i].key == key;
    }
  }

  lemma {:induction false} KeysOfFold(arrivals: seq<Arrival>, key: Key)
    ensures KeyAccepted(arrivals, key) <==> KeyIn(FirstAccepted([], arrivals), key)
    decreases |arrivals|
  {
    if arrivals != [] {
      var n := |arrivals| - 1;
      KeysOfFold(arrivals[..n], key);
      KeyAcceptedStep(arrivals, key);
      KeyInStep(FirstAccepted([], arrivals[..n]), Entry(arrivals[n].req.key, arrivals[n].req.body), key);
    }
  }

  lemma NewKeyIsFirst(arrivals: seq<Arrival>)
    requires arrivals != []
    ensures var n := |arrivals| - 1;
      var before := FirstAccepted([], arrivals[..n]);
      (Accepted(arrivals[n]) && forall i :: 0 <= i < |before| ==> before[i].key != arrivals[n].req.key)
      <==> IsFirstAccepted(arrivals, n)
  {
    var n := |arrivals| - 1;
    KeysOfFold(arrivals[..n], arrivals[n].req.key);
    if KeyAccepted(arrivals[..n], arrivals[n].req.key) {
      var j :| 0 <= j < n && Accepted(arrivals[..n][j]) && arrivals[..n][j].req.key == arrivals[n].req.key;
      assert Accepted(arrivals[j]) && arrivals[j].req.key == arrivals[n].req.key;
    } else {
      forall j | 0 <= j < n && Accepted(arrivals[j]) ensures arrivals[j].req.key != arrivals[n].req.key {
        assert arrivals[..n][j] == arrivals[j];
      }
    }
  }
}
