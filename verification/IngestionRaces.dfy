/** Idempotent ingestion statement by statement: submissions overlap, the cache is purged at any
    time, statements fail with or without having taken effect, and servers crash. */
module IngestionRaces {
  import opened Wrappers
  import opened Ingestion

  /** What a submission does next; its internal id is the number of its arrival. */
  datatype Stage = Reading | Inserting | Caching | Replied(reply: Reply) | Gone

  datatype Client = Client(req: Request, stage: Stage)

  datatype System = System(store: seq<Stored>, cache: map<Key, CacheRow>, now: int, clients: seq<Client>)
  {
    predicate In(k: nat, stage: Stage) { k < |clients| && clients[k].stage == stage }

    function Move(k: nat, stage: Stage): System
      requires k < |clients|
    {
      this.(clients := clients[k := clients[k].(stage := stage)])
    }

    function Inserted(k: nat): System
      requires k < |clients|
    {
      this.(store := InsertRecord(store, Stored(k, clients[k].req.key, clients[k].req.body, now)))
    }

    function Cached(k: nat, ttl: nat): System
      requires k < |clients|
    {
      this.(cache := Remember(cache, clients[k].req.key, CacheRow(k, now + ttl)))
    }
  }

  datatype Step =
    | Tick(later: int)
    | Purge
    | Arrive(req: Request)
    | Read(k: nat)
    | ReadFails(k: nat)
    | Insert(k: nat)
    | InsertFails(k: nat, applied: bool)
    | Cache(k: nat)
    | CacheFails(k: nat, applied: bool)
    | Crash(k: nat)

  predicate CanStep(s: System, step: Step) {
    match step
    case Tick(later) => s.now <= later
    case Purge => true
    case Arrive(_) => true
    case Read(k) => s.In(k, Reading)
    case ReadFails(k) => s.In(k, Reading)
    case Insert(k) => s.In(k, Inserting)
    case InsertFails(k, _) => s.In(k, Inserting)
    case Cache(k) => s.In(k, Caching)
    case CacheFails(k, _) => s.In(k, Caching)
    case Crash(k) => k < |s.clients| && !s.clients[k].stage.Replied?
  }

  /** After the cache had no answer: the pipeline accepts or rejects the record. */
  function AfterRead(req: Request): Stage { if req.valid then Inserting else Replied(Rejected) }

  function Next(s: System, step: Step, ttl: nat): System
    requires CanStep(s, step)
  {
    match step
    case Tick(later) => s.(now := later)
    case Purge => s.(cache := Purged(s.cache, s.now))
    case Arrive(req) => s.(clients := s.clients + [Client(req, Reading)])
    case Read(k) =>
      var hit := Lookup(s.cache, s.clients[k].req.key, s.now);
      s.Move(k, if hit.Some? then Replied(Success(hit.value)) else AfterRead(s.clients[k].req))
    case ReadFails(k) => s.Move(k, AfterRead(s.clients[k].req))
    case Insert(k) => s.Inserted(k).Move(k, Caching)
    case InsertFails(k, applied) => (if applied then s.Inserted(k) else s).Move(k, Replied(StorageError))
    case Cache(k) => s.Cached(k, ttl).Move(k, Replied(Success(k)))
    case CacheFails(k, applied) => (if applied then s.Cached(k, ttl) else s).Move(k, Replied(Success(k)))
    case Crash(k) => s.Move(k, Gone)
  }

  predicate IsRun(s: System, steps: seq<Step>, ttl: nat)
    decreases |steps|
  {
    steps == [] || (CanStep(s, steps[0]) && IsRun(Next(s, steps[0], ttl), steps[1..], ttl))
  }

  function End(s: System, steps: seq<Step>, ttl: nat): System
    requires IsRun(s, steps, ttl)
    decreases |steps|
  {
    if steps == [] then s else End(Next(s, steps[0], ttl), steps[1..], ttl)
  }

  // ---------------------------------------------------------------- what always holds

  /** Internal id `id` was handed to an accepted submission of this key. */
  predicate Owner(s: System, id: nat, key: Key) {
    id < |s.clients| && s.clients[id].req.key == key && s.clients[id].req.valid
  }

  /** A stored record is what its owner submitted. */
  predicate FromOwner(s: System, r: Stored) {
    Owner(s, r.internalId, r.key) && s.clients[r.internalId].req.body == r.body
  }

  ghost predicate ClientOk(s: System, k: nat)
    requires k < |s.clients|
  {
    var client := s.clients[k];
    match client.stage
    case Inserting => client.req.valid
    case Caching => client.req.valid && HasKey(s.store, client.req.key)
    case Replied(Success(id)) => Owner(s, id, client.req.key) && HasKey(s.store, client.req.key)
    case _ => true
  }

  ghost predicate Ok(s: System) {
    && UniqueKeys(s.store)
    && (forall i :: 0 <= i < |s.store| ==> FromOwner(s, s.store[i]))
    && (forall key :: key in s.cache ==> HasKey(s.store, key) && Owner(s, s.cache[key].internalId, key))
    && (forall k :: 0 <= k < |s.clients| ==> ClientOk(s, k))
  }

  /** Stored records and requests stay; only stages, cache and clock move. */
  ghost predicate Grows(s: System, t: System) {
    && s.store <= t.store && s.now <= t.now && |s.clients| <= |t.clients|
    && forall k :: 0 <= k < |s.clients| ==> t.clients[k].req == s.clients[k].req
  }

  lemma GrowsKeepsKey(s: System, t: System, key: Key)
    requires Grows(s, t) && HasKey(s.store, key)
    ensures HasKey(t.store, key)
  {}

  lemma StepGrows(s: System, step: Step, ttl: nat)
    requires CanStep(s, step)
    ensures Grows(s, Next(s, step, ttl))
  {}

  /** The client of a step, if it has one, keeps to its promise. */
  lemma StepClients(s: System, step: Step, ttl: nat, k: nat)
    requires Ok(s) && CanStep(s, step) && k < |Next(s, step, ttl).clients|
    ensures ClientOk(Next(s, step, ttl), k)
  {
    hide InsertRecord, Remember, Purged, HasKey;
    var t := Next(s, step, ttl);
    StepGrows(s, step, ttl);
    if k < |s.clients| {
      var req := s.clients[k].req;
      assert ClientOk(s, k);
      if HasKey(s.store, req.key) { GrowsKeepsKey(s, t, req.key); }
      InsertHasKeys(s.store, Stored(k, req.key, req.body, s.now));
    }
  }

  lemma StepStore(s: System, step: Step, ttl: nat)
    requires Ok(s) && CanStep(s, step)
    ensures UniqueKeys(Next(s, step, ttl).store)
    ensures forall i :: 0 <= i < |Next(s, step, ttl).store| ==> FromOwner(Next(s, step, ttl), Next(s, step, ttl).store[i])
  {
    var t := Next(s, step, ttl);
    StepGrows(s, step, ttl);
    forall i | 0 <= i < |t.store| ensures FromOwner(t, t.store[i]) {
      if i < |s.store| {
        assert FromOwner(s, s.store[i]);
      } else {
        match step
        case Insert(k) => assert ClientOk(s, k);
        case InsertFails(k, _) => assert ClientOk(s, k);
        case _ =>
      }
    }
  }

  lemma StepCache(s: System, step: Step, ttl: nat, key: Key)
    requires Ok(s) && CanStep(s, step) && key in Next(s, step, ttl).cache
    ensures HasKey(Next(s, step, ttl).store, key) && Owner(Next(s, step, ttl), Next(s, step, ttl).cache[key].internalId, key)
  {
    var t := Next(s, step, ttl);
    StepGrows(s, step, ttl);
    if key in s.cache {
      GrowsKeepsKey(s, t, key);
    } else {
      match step
      case Cache(k) =>
        assert ClientOk(s, k);
        GrowsKeepsKey(s, t, key);
      case CacheFails(k, _) =>
        assert ClientOk(s, k);
        GrowsKeepsKey(s, t, key);
    }
  }

  lemma StepOk(s: System, step: Step, ttl: nat)
    requires Ok(s) && CanStep(s, step)
    ensures Ok(Next(s, step, ttl))
  {
    var t := Next(s, step, ttl);
    StepStore(s, step, ttl);
    forall key | key in t.cache ensures HasKey(t.store, key) && Owner(t, t.cache[key].internalId, key) {
      StepCache(s, step, ttl, key);
    }
    forall k | 0 <= k < |t.clients| ensures ClientOk(t, k) { StepClients(s, step, ttl, k); }
  }

  lemma {:induction false} RunOk(s: System, steps: seq<Step>, ttl: nat)
    requires Ok(s) && IsRun(s, steps, ttl)
    ensures Ok(End(s, steps, ttl))
    decreases |steps|
  {
    if steps != [] {
      StepOk(s, steps[0], ttl);
      RunOk(Next(s, steps[0], ttl), steps[1..], ttl);
    }
  }

  function Empty(now: int): System { System([], map[], now, []) }

  /** Under any interleaving, failure, crash and purge: one record per key, and it is one that was
      submitted and accepted; every cached reply and every success belongs to a key with a stored
      record, and names an id handed out for that very key. */
  lemma AnyInterleaving(now: int, steps: seq<Step>, ttl: nat)
    requires IsRun(Empty(now), steps, ttl)
    ensures var s := End(Empty(now), steps, ttl);
      && (forall i, j :: 0 <= i < j < |s.store| ==> s.store[i].key != s.store[j].key)
      && (forall i :: 0 <= i < |s.store| ==> FromOwner(s, s.store[i]))
      && (forall key :: key in s.cache ==> HasKey(s.store, key) && Owner(s, s.cache[key].internalId, key))
      && (forall k :: 0 <= k < |s.clients| && s.clients[k].stage.Replied? && s.clients[k].stage.reply.Success? ==>
        HasKey(s.store, s.clients[k].req.key) && Owner(s, s.clients[k].stage.reply.internalId, s.clients[k].req.key))
  {
    RunOk(Empty(now), steps, ttl);
    var s := End(Empty(now), steps, ttl);
    forall k | 0 <= k < |s.clients| && s.clients[k].stage.Replied? && s.clients[k].stage.reply.Success?
      ensures HasKey(s.store, s.clients[k].req.key) && Owner(s, s.clients[k].stage.reply.internalId, s.clients[k].req.key)
    {
      assert ClientOk(s, k);
    }
  }

  /** The first insert of a key wins for good: records are never removed, changed or reordered. */
  lemma {:induction false} FirstInsertWins(s: System, steps: seq<Step>, ttl: nat)
    requires IsRun(s, steps, ttl)
    ensures Grows(s, End(s, steps, ttl))
    decreases |steps|
  {
    if steps != [] {
      StepGrows(s, steps[0], ttl);
      FirstInsertWins(Next(s, steps[0], ttl), steps[1..], ttl);
    }
  }

  // ---------------------------------------------------------------- what does not

  /** Two overlapping submissions of a new key can both succeed under different ids, although only
      one of them is stored. */
  lemma TwoIdsForOneKey(s: System, req: Request, ttl: nat) returns (steps: seq<Step>)
    requires Absent(s.store, req.key) && req.key !in s.cache && req.valid
    ensures IsRun(s, steps, ttl)
    ensures var t, k := End(s, steps, ttl), |s.clients|;
      && t.In(k, Replied(Success(k))) && t.In(k + 1, Replied(Success(k + 1)))
      && t.store == s.store + [Stored(k, req.key, req.body, s.now)]
  {
    var k := |s.clients|;
    var s1 := Next(s, Arrive(req), ttl);
    var s2 := Next(s1, Arrive(req), ttl);
    var s3 := Next(s2, Read(k), ttl);
    var s4 := Next(s3, Read(k + 1), ttl);
    var s5 := Next(s4, Insert(k), ttl);
    assert s5.store[|s.store|].key == req.key;
    var s6 := Next(s5, Insert(k + 1), ttl);
    var s7 := Next(s6, Cache(k), ttl);
    var s8 := Next(s7, Cache(k + 1), ttl);
    hide CanStep, Next;
    steps := [];
    steps := Further(s, steps, Arrive(req), ttl);
    steps := Further(s, steps, Arrive(req), ttl);
    steps := Further(s, steps, Read(k), ttl);
    steps := Further(s, steps, Read(k + 1), ttl);
    steps := Further(s, steps, Insert(k), ttl);
    steps := Further(s, steps, Insert(k + 1), ttl);
    steps := Further(s, steps, Cache(k), ttl);
    steps := Further(s, steps, Cache(k + 1), ttl);
  }

  lemma {:induction false} Further(s: System, steps: seq<Step>, step: Step, ttl: nat) returns (more: seq<Step>)
    requires IsRun(s, steps, ttl) && CanStep(End(s, steps, ttl), step)
    ensures more == steps + [step] && IsRun(s, more, ttl)
    ensures End(s, more, ttl) == Next(End(s, steps, ttl), step, ttl)
    decreases |steps|
  {
    more := steps + [step];
    if steps == [] {
      assert more == [step] && [step][1..] == [];
    } else {
      assert more[1..] == steps[1..] + [step];
      var rest := Further(Next(s, steps[0], ttl), steps[1..], step, ttl);
    }
  }

  // ---------------------------------------------------------------- which id is the stored one

  /** The stored record of the key carries this id. */
  ghost predicate Names(s: System, id: nat, key: Key) {
    exists i :: 0 <= i < |s.store| && s.store[i].key == key && s.store[i].internalId == id
  }

  /** In this step the insert of client k takes effect and finds its key absent. */
  predicate InsertsFirst(s: System, step: Step, k: nat)
    requires CanStep(s, step)
  {
    (step == Insert(k) || step == InsertFails(k, true)) && Absent(s.store, s.clients[k].req.key)
  }

  predicate InsertedFirst(s: System, steps: seq<Step>, ttl: nat, k: nat)
    requires IsRun(s, steps, ttl)
    decreases |steps|
  {
    steps != [] && (InsertsFirst(s, steps[0], k) || InsertedFirst(Next(s, steps[0], ttl), steps[1..], ttl, k))
  }

  lemma StepNames(s: System, step: Step, ttl: nat, id: nat, key: Key)
    requires CanStep(s, step) && (id < |s.clients| ==> s.clients[id].req.key == key)
    ensures Names(Next(s, step, ttl), id, key) <==> Names(s, id, key) || InsertsFirst(s, step, id)
  {
    hide Remember, Purged, Lookup;
    var t := Next(s, step, ttl);
    assert |s.store| <= |t.store| && s.store == t.store[..|s.store|];
    if InsertsFirst(s, step, id) { assert t.store[|s.store|].internalId == id; }
    if i :| 0 <= i < |s.store| && s.store[i].key == key && s.store[i].internalId == id { assert t.store[i] == s.store[i]; }
  }

  /** An id gets to be the stored one by the insert of the client it was handed to, and no other way. */
  lemma {:induction false} NamesIff(s: System, steps: seq<Step>, ttl: nat, id: nat, key: Key)
    requires IsRun(s, steps, ttl)
    requires var t := End(s, steps, ttl); id < |t.clients| && t.clients[id].req.key == key
    ensures Names(End(s, steps, ttl), id, key) <==> Names(s, id, key) || InsertedFirst(s, steps, ttl, id)
    decreases |steps|
  {
    FirstInsertWins(s, steps, ttl);
    if steps != [] {
      hide Names, InsertsFirst, Next, CanStep;
      StepNames(s, steps[0], ttl, id, key);
      NamesIff(Next(s, steps[0], ttl), steps[1..], ttl, id, key);
    }
  }

  /** Whoever has answered, or is gone, stays so. */
  lemma {:induction false} StageStays(s: System, steps: seq<Step>, ttl: nat, k: nat)
    requires IsRun(s, steps, ttl) && k < |s.clients| && (s.clients[k].stage.Replied? || s.clients[k].stage.Gone?)
    ensures k < |End(s, steps, ttl).clients| && End(s, steps, ttl).clients[k] == s.clients[k]
    decreases |steps|
  {
    hide InsertRecord, Remember, Purged, Lookup;
    if steps != [] { StageStays(Next(s, steps[0], ttl), steps[1..], ttl, k); }
  }

  /** Among these steps client id writes a row of the cache. */
  predicate WroteRow(steps: seq<Step>, id: nat) { Cache(id) in steps || CacheFails(id, true) in steps }

  ghost predicate CachedId(s: System, id: nat) { exists key :: key in s.cache && s.cache[key].internalId == id }

  /** Client k reads the cache after client id has written to it. */
  ghost predicate ReadAfter(s: System, steps: seq<Step>, k: nat, id: nat) {
    exists i :: 0 <= i < |steps| && steps[i] == Read(k) && (CachedId(s, id) || WroteRow(steps[..i], id))
  }

  lemma CachedBefore(s: System, step: Step, ttl: nat, id: nat)
    requires CanStep(s, step) && CachedId(Next(s, step, ttl), id)
    ensures CachedId(s, id) || WroteRow([step], id)
  {
    var key :| key in Next(s, step, ttl).cache && Next(s, step, ttl).cache[key].internalId == id;
    if key in s.cache && s.cache[key].internalId == id { assert CachedId(s, id); }
  }

  lemma ReadLater(s: System, steps: seq<Step>, ttl: nat, k: nat, id: nat)
    requires steps != [] && CanStep(s, steps[0]) && ReadAfter(Next(s, steps[0], ttl), steps[1..], k, id)
    ensures ReadAfter(s, steps, k, id)
  {
    var s' := Next(s, steps[0], ttl);
    var i :| 0 <= i < |steps[1..]| && steps[1..][i] == Read(k) && (CachedId(s', id) || WroteRow(steps[1..][..i], id));
    if CachedId(s', id) { CachedBefore(s, steps[0], ttl, id); }
    hide CachedId, Next, CanStep;
    assert steps[..i + 1] == [steps[0]] + steps[1..][..i];
    assert steps[i + 1] == Read(k);
  }

  predicate Succeeded(s: System, k: nat) {
    k < |s.clients| && s.clients[k].stage.Replied? && s.clients[k].stage.reply.Success?
  }

  /** The id that client k was answered. */
  function AnsweredId(s: System, k: nat): nat
    requires Succeeded(s, k)
  {
    s.clients[k].stage.reply.internalId
  }

  /** The step in which client k answers with success. */
  lemma AnswerFrom(s: System, step: Step, ttl: nat, k: nat)
    requires CanStep(s, step) && !Succeeded(s, k) && Succeeded(Next(s, step, ttl), k)
    ensures var id := AnsweredId(Next(s, step, ttl), k); id == k || (step == Read(k) && CachedId(s, id))
  {
    hide InsertRecord, Remember, Purged;
  }

  lemma {:induction false} CameFrom(s: System, steps: seq<Step>, ttl: nat, k: nat)
    requires IsRun(s, steps, ttl) && !Succeeded(s, k) && Succeeded(End(s, steps, ttl), k)
    ensures var id := AnsweredId(End(s, steps, ttl), k); id == k || ReadAfter(s, steps, k, id)
    decreases |steps|
  {
    var s', id := Next(s, steps[0], ttl), AnsweredId(End(s, steps, ttl), k);
    if Succeeded(s', k) {
      AnswerFrom(s, steps[0], ttl, k);
      StageStays(s', steps[1..], ttl, k);
      if id != k { assert steps[0] == Read(k) && CachedId(s, id); }
    } else {
      CameFrom(s', steps[1..], ttl, k);
      hide CachedId, Next, CanStep, ReadAfter;
      if id != k { ReadLater(s, steps, ttl, k, id); }
    }
  }

  /** Overlapping or not, a success names the client's own id, or the id of a client that had written
      the cached row it read; and that id is the stored one exactly when the insert of the client it
      was handed to found the key absent. */
  lemma SuccessNamesStoredIff(now: int, steps: seq<Step>, ttl: nat, k: nat)
    requires IsRun(Empty(now), steps, ttl) && Succeeded(End(Empty(now), steps, ttl), k)
    ensures var t := End(Empty(now), steps, ttl);
      var id := AnsweredId(t, k);
      && (id == k || exists i :: 0 <= i < |steps| && steps[i] == Read(k) && WroteRow(steps[..i], id))
      && (Names(t, id, t.clients[k].req.key) <==> InsertedFirst(Empty(now), steps, ttl, id))
  {
    var t := End(Empty(now), steps, ttl);
    AnyInterleaving(now, steps, ttl);
    CameFrom(Empty(now), steps, ttl, k);
    NamesIff(Empty(now), steps, ttl, AnsweredId(t, k), t.clients[k].req.key);
  }

  // ---------------------------------------------------------------- one submission on its own

  /** The steps of a submission that nobody overlaps, with the given failures. */
  function StepsOf(s: System, a: Arrival): seq<Step> {
    var k := |s.clients|;
    [Arrive(a.req), if a.readFails then ReadFails(k) else Read(k)]
    + (if Recognised(TablesIn(s), a) || !a.req.valid then []
       else if a.insertFails then [InsertFails(k, false)]
       else [Insert(k), if a.setFails then CacheFails(k, false) else Cache(k)])
  }

  /** The tables as a server sees them; ids are the numbers of the arrivals. */
  function TablesIn(s: System): Tables { Tables(s.store, s.cache, |s.clients|) }

  lemma RunOfTwo(s: System, a: Step, b: Step, ttl: nat)
    requires CanStep(s, a) && CanStep(Next(s, a, ttl), b)
    ensures IsRun(s, [a, b], ttl) && End(s, [a, b], ttl) == Next(Next(s, a, ttl), b, ttl)
  {
    hide CanStep, Next;
    var one := Further(s, [], a, ttl);
    var two := Further(s, one, b, ttl);
    assert two == [a, b];
  }

  /** Then the statements do what one submission does: the same reply, and the same two tables. */
  lemma AloneIsSubmit(s: System, a: Arrival, ttl: nat)
    requires !a.limited && a.now == s.now
    ensures IsRun(s, StepsOf(s, a), ttl)
    ensures var done, e, k := Submit(TablesIn(s), a, ttl), End(s, StepsOf(s, a), ttl), |s.clients|;
      && e.store == done.t.store && e.cache == done.t.cache
      && k < |e.clients| && e.clients[k].stage == Replied(done.reply)
  {
    var k := |s.clients|;
    var first := [Arrive(a.req), if a.readFails then ReadFails(k) else Read(k)];
    RunOfTwo(s, first[0], first[1], ttl);
    assert first == [first[0], first[1]];
    var s2 := End(s, first, ttl);
    if Recognised(TablesIn(s), a) || !a.req.valid {
      assert StepsOf(s, a) == first;
    } else if a.insertFails {
      var steps := Further(s, first, InsertFails(k, false), ttl);
      assert StepsOf(s, a) == steps;
    } else {
      var steps := Further(s, first, Insert(k), ttl);
      steps := Further(s, steps, if a.setFails then CacheFails(k, false) else Cache(k), ttl);
      assert StepsOf(s, a) == steps;
    }
  }
}
