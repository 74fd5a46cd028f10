/**
  The expiring cache in front of the Redis configuration store. The cache lock is not held
  across Redis input and output, so lookups, Redis accesses and insertions of concurrent
  operations interleave, as do writes of other processes and evictions.
 */
module ConfigCache {
  import opened Common
  import opened Json

  type OpId = nat

  /** A Redis value: the encoding of a configuration, or bytes that do not decode. */
  datatype Blob = Encoded(config: Json) | Malformed

  datatype StoreError = NoDataForKey | DataWrongFormat | DataEncoding | CantWriteData

  datatype CachedEntry = CachedEntry(insertedAt: nat, config: Json) {
    predicate IsFresh(now: nat, expiry: nat) {
      (if now < insertedAt then 0 else now - insertedAt) < expiry
    }
  }

  /** What a GET makes of Redis's reply; an unreachable Redis is reported like missing data. */
  function Decoded(reachable: bool, blob: Option<Blob>): Result<Json, StoreError> {
    if !reachable || blob.None? then Err(NoDataForKey)
    else if blob.value.Malformed? then Err(DataWrongFormat)
    else Ok(blob.value.config)
  }

  function Lookup<V>(m: map<string, V>, subject: string): Option<V> {
    if subject in m then Some(m[subject]) else None
  }

  // ----- Concurrent operations as steps -----

  /** `accessed` names the state of the run, counted in steps, in which Redis held the value. */
  datatype Cached = Cached(entry: CachedEntry, accessed: nat)

  datatype Phase =
    | Started
    | Missed
    | Holding(config: Json, accessed: nat)
    | Done(outcome: Result<Json, StoreError>, accessed: nat, finishedAt: nat)

  /** `write` is the configuration of a set, and absent for a get; `began` counts steps. */
  datatype Operation = Operation(subject: string, write: Option<Json>, began: nat, phase: Phase)

  datatype State = State(
    expiry: nat,
    now: nat,
    steps: nat,
    redis: map<string, Blob>,
    cache: map<string, Cached>,
    operations: map<OpId, Operation>)

  datatype Action =
    | Advance(duration: nat)
    | Publish(subject: string, blob: Blob)
    | Withdraw(subject: string)
    | Evict(subject: string)
    | Begin(op: OpId, subject: string, write: Option<Json>)
    | FailEncoding(op: OpId)
    | Look(op: OpId)
    | Access(op: OpId, reachable: bool)
    | Insert(op: OpId)

  function Initial(expiry: nat): State { State(expiry, 0, 0, map[], map[], map[]) }

  function InPhase(s: State, op: OpId, phase: Phase): State
    requires op in s.operations
  {
    s.(operations := s.operations[op := s.operations[op].(phase := phase)])
  }

  /** The lookup under the cache lock: a fresh entry ends the operation and stays as it is. */
  function LookStep(s: State, op: OpId): State
    requires op in s.operations
  {
    match Lookup(s.cache, s.operations[op].subject)
    case None => InPhase(s, op, Missed)
    case Some(cached) =>
      if cached.entry.IsFresh(s.now, s.expiry)
      then InPhase(s, op, Done(Ok(cached.entry.config), cached.accessed, s.now))
      else InPhase(s, op, Missed)
  }

  function GetStep(s: State, op: OpId, reachable: bool): State
    requires op in s.operations
  {
    match Decoded(reachable, Lookup(s.redis, s.operations[op].subject))
    case Err(error) => InPhase(s, op, Done(Err(error), 0, s.now))
    case Ok(config) => InPhase(s, op, Holding(config, s.steps + 1))
  }

  /** A write that reached Redis although it reported an error is a `Publish` before an unreachable access. */
  function SetStep(s: State, op: OpId, reachable: bool): State
    requires op in s.operations && s.operations[op].write.Some?
  {
    var operation := s.operations[op];
    if !reachable then InPhase(s, op, Done(Err(CantWriteData), 0, s.now))
    else
      InPhase(s.(redis := s.redis[operation.subject := Encoded(operation.write.value)]), op,
              Holding(operation.write.value, s.steps + 1))
  }

  function InsertStep(s: State, op: OpId): State
    requires op in s.operations && s.operations[op].phase.Holding?
  {
    var operation := s.operations[op];
    var held := operation.phase;
    var cache := if s.expiry == 0 then s.cache
                 else s.cache[operation.subject := Cached(CachedEntry(s.now, held.config), held.accessed)];
    InPhase(s.(cache := cache), op, Done(Ok(held.config), held.accessed, s.now))
  }

  predicate IsReading(operation: Operation) { operation.write.None? && operation.phase.Missed? }

  predicate IsWriting(operation: Operation) { operation.write.Some? && operation.phase.Started? }

  function Effect(s: State, a: Action): Option<State> {
    match a
    case Advance(duration) => Some(s.(now := s.now + duration))
    case Publish(subject, blob) => Some(s.(redis := s.redis[subject := blob]))
    case Withdraw(subject) => Some(s.(redis := s.redis - {subject}))
    case Evict(subject) => Some(s.(cache := s.cache - {subject}))
    case Begin(op, subject, write) =>
      if op in s.operations then None
      else Some(s.(operations := s.operations[op := Operation(subject, write, s.steps, Started)]))
    case FailEncoding(op) =>
      if op in s.operations && (IsReading(s.operations[op]) || IsWriting(s.operations[op]))
      then Some(InPhase(s, op, Done(Err(DataEncoding), 0, s.now))) else None
    case Look(op) =>
      if op in s.operations && s.operations[op].write.None? && s.operations[op].phase.Started?
      then Some(LookStep(s, op)) else None
    case Access(op, reachable) =>
      if op !in s.operations then None
      else if IsReading(s.operations[op]) then Some(GetStep(s, op, reachable))
      else if IsWriting(s.operations[op]) then Some(SetStep(s, op, reachable))
      else None
    case Insert(op) =>
      if op in s.operations && s.operations[op].phase.Holding? then Some(InsertStep(s, op)) else None
  }

  function Step(s: State, a: Action): Option<State> {
    match Effect(s, a)
    case None => None
    case Some(t) => Some(t.(steps := s.steps + 1))
  }

  function Run(expiry: nat, actions: seq<Action>): Option<State> {
    if actions == [] then Some(Initial(expiry))
    else
      match Run(expiry, actions[..|actions| - 1])
      case None => None
      case Some(s) => Step(s, actions[|actions| - 1])
  }

  /** Time, other processes and the LRU policy can act in every state, and touch nothing else. */
  lemma OthersAct(s: State, subject: string, blob: Blob, duration: nat)
    ensures Step(s, Advance(duration)) == Some(s.(now := s.now + duration, steps := s.steps + 1))
    ensures Step(s, Publish(subject, blob)) == Some(s.(redis := s.redis[subject := blob], steps := s.steps + 1))
    ensures Step(s, Withdraw(subject)) == Some(s.(redis := s.redis - {subject}, steps := s.steps + 1))
    ensures Step(s, Evict(subject)) == Some(s.(cache := s.cache - {subject}, steps := s.steps + 1))
  {
  }

  // ----- One operation, run alone -----

  /** The state after an action if it is enabled, and else as it was. */
  function Then(s: State, a: Action): State {
    match Step(s, a) case Some(t) => t case None => s
  }

  /** The steps of one get with no other action between; `waited` is the time up to the insertion. */
  function GetAlone(s: State, op: OpId, subject: string, encodable: bool, reachable: bool, waited: nat): State {
    var looked := Then(Then(s, Begin(op, subject, None)), Look(op));
    var fetched := Then(looked, if encodable then Access(op, reachable) else FailEncoding(op));
    Then(Then(fetched, Advance(waited)), Insert(op))
  }

  /** The steps of one set with no other action between. */
  function SetAlone(s: State, op: OpId, subject: string, config: Json,
                    encodable: bool, reachable: bool, waited: nat): State
  {
    var begun := Then(s, Begin(op, subject, Some(config)));
    var accessed := Then(begun, if encodable then Access(op, reachable) else FailEncoding(op));
    Then(Then(accessed, Advance(waited)), Insert(op))
  }

  function Entries(cache: map<string, Cached>): map<string, CachedEntry> {
    map subject | subject in cache :: cache[subject].entry
  }

  predicate Ended(s: State, op: OpId, outcome: Result<Json, StoreError>) {
    op in s.operations && s.operations[op].phase.Done? && s.operations[op].phase.outcome == outcome
  }

  predicate Hits(cache: map<string, CachedEntry>, subject: string, now: nat, expiry: nat) {
    subject in cache && cache[subject].IsFresh(now, expiry)
  }

  lemma HitAlone(s: State, op: OpId, subject: string, encodable: bool, reachable: bool, waited: nat)
    requires op !in s.operations && Hits(Entries(s.cache), subject, s.now, s.expiry)
    ensures var t := GetAlone(s, op, subject, encodable, reachable, waited);
            Ended(t, op, Ok(Entries(s.cache)[subject].config)) && t.cache == s.cache && t.redis == s.redis
  {
    var looked := Then(Then(s, Begin(op, subject, None)), Look(op));
    assert looked.operations[op].phase == Done(Ok(s.cache[subject].entry.config), s.cache[subject].accessed, s.now);
  }

  /** A get that missed, on to its end. */
  lemma FetchAlone(looked: State, op: OpId, encodable: bool, reachable: bool, waited: nat)
    requires op in looked.operations && IsReading(looked.operations[op])
    ensures var subject := looked.operations[op].subject;
            var fetched := Then(looked, if encodable then Access(op, reachable) else FailEncoding(op));
            var t := Then(Then(fetched, Advance(waited)), Insert(op));
            var outcome := if encodable then Decoded(reachable, Lookup(looked.redis, subject)) else Err(DataEncoding);
            && Ended(t, op, outcome) && t.redis == looked.redis
            && Entries(t.cache)
               == if outcome.Ok? && looked.expiry != 0
                  then Entries(looked.cache)[subject := CachedEntry(looked.now + waited, outcome.value)]
                  else Entries(looked.cache)
  {
  }

  lemma MissAlone(s: State, op: OpId, subject: string, encodable: bool, reachable: bool, waited: nat)
    requires op !in s.operations && !Hits(Entries(s.cache), subject, s.now, s.expiry)
    ensures var t := GetAlone(s, op, subject, encodable, reachable, waited);
            var outcome := if encodable then Decoded(reachable, Lookup(s.redis, subject)) else Err(DataEncoding);
            && Ended(t, op, outcome) && t.redis == s.redis
            && Entries(t.cache)
               == if outcome.Ok? && s.expiry != 0
                  then Entries(s.cache)[subject := CachedEntry(s.now + waited, outcome.value)] else Entries(s.cache)
  {
    var looked := Then(Then(s, Begin(op, subject, None)), Look(op));
    assert looked.operations[op] == Operation(subject, None, s.steps, Missed);
    assert looked.redis == s.redis && looked.cache == s.cache && looked.now == s.now && looked.expiry == s.expiry;
    FetchAlone(looked, op, encodable, reachable, waited);
  }

  lemma WriteAlone(s: State, op: OpId, subject: string, config: Json, encodable: bool, reachable: bool, waited: nat)
    requires op !in s.operations
    ensures var t := SetAlone(s, op, subject, config, encodable, reachable, waited);
            var accepted := encodable && reachable;
            && Ended(t, op, if !encodable then Err(DataEncoding)
                            else if !reachable then Err(CantWriteData) else Ok(config))
            && t.redis == (if accepted then s.redis[subject := Encoded(config)] else s.redis)
            && Entries(t.cache)
               == if accepted && s.expiry != 0
                  then Entries(s.cache)[subject := CachedEntry(s.now + waited, config)] else Entries(s.cache)
  {
    var begun := Then(s, Begin(op, subject, Some(config)));
    assert begun.operations[op] == Operation(subject, Some(config), s.steps, Started);
  }

  class RedisStore {
    const cacheExpiry: nat
    var cache: map<string, CachedEntry>

    constructor (expiry: nat)
      ensures cacheExpiry == expiry && cache == map[]
    {
      cacheExpiry, cache := expiry, map[];
    }

    /** `s` is a state of the protocol in which this store's cache and clock and Redis's reply are as given. */
    ghost predicate Mirrors(s: State, now: nat)
      reads this
    {
      s.expiry == cacheExpiry && s.now == now && Entries(s.cache) == cache
    }

    /**
      The get that nothing interrupts: in every state of the protocol its steps, taken one after another, end with
      this result and this cache.
     */
    method GetConfig(subject: string, now: nat, encodable: bool, reachable: bool, blob: Option<Blob>, waited: nat)
        returns (r: Result<Json, StoreError>)
      modifies this
      ensures forall s, op {:trigger GetAlone(s, op, subject, encodable, reachable, waited)}
                | old(Mirrors(s, now)) && Lookup(s.redis, subject) == blob && op !in s.operations ::
                var t := GetAlone(s, op, subject, encodable, reachable, waited);
                Ended(t, op, r) && Entries(t.cache) == cache && t.redis == s.redis
      ensures cacheExpiry != 0 && subject in old(cache) && now < old(cache)[subject].insertedAt + cacheExpiry ==>
                r == Ok(old(cache)[subject].config) && cache == old(cache)
      ensures cacheExpiry == 0 || subject !in old(cache) || now >= old(cache)[subject].insertedAt + cacheExpiry ==>
                && (!encodable ==> r == Err(DataEncoding))
                && (encodable && (!reachable || blob == None) ==> r == Err(NoDataForKey))
                && (encodable && reachable && blob == Some(Malformed) ==> r == Err(DataWrongFormat))
                && (encodable && reachable && blob.Some? && blob.value.Encoded? ==> r == Ok(blob.value.config))
                && cache == if r.Ok? && cacheExpiry != 0
                            then old(cache)[subject := CachedEntry(now + waited, r.value)] else old(cache)
    {
      forall s, op | Mirrors(s, now) && Lookup(s.redis, subject) == blob && op !in s.operations
        ensures var t := GetAlone(s, op, subject, encodable, reachable, waited);
                && t.redis == s.redis
                && (Hits(cache, subject, now, cacheExpiry) ==>
                      Ended(t, op, Ok(cache[subject].config)) && Entries(t.cache) == cache)
                && (!Hits(cache, subject, now, cacheExpiry) ==>
                      var outcome := if encodable then Decoded(reachable, blob) else Err(DataEncoding);
                      && Ended(t, op, outcome)
                      && Entries(t.cache) == if outcome.Ok? && cacheExpiry != 0
                                             then cache[subject := CachedEntry(now + waited, outcome.value)] else cache)
      {
        if Hits(cache, subject, now, cacheExpiry) {
          HitAlone(s, op, subject, encodable, reachable, waited);
        } else {
          MissAlone(s, op, subject, encodable, reachable, waited);
        }
      }
      if cacheExpiry != 0 {
        if subject in cache {
          var entry := cache[subject];
          if entry.IsFresh(now, cacheExpiry) {
            return Ok(entry.config);
          }
        }
      }
      if !encodable {
        return Err(DataEncoding);
      }
      r := Decoded(reachable, blob);
      if r.Ok? && cacheExpiry != 0 {
        cache := cache[subject := CachedEntry(now + waited, r.value)];
      }
    }

    /** The set that nothing interrupts ends as its steps do: the result, what Redis holds, and the cache. */
    method SetConfig(subject: string, config: Json, now: nat, encodable: bool, reachable: bool, waited: nat)
        returns (r: Result<(), StoreError>, written: Option<Blob>)
      modifies this
      ensures forall s, op {:trigger SetAlone(s, op, subject, config, encodable, reachable, waited)}
                | old(Mirrors(s, now)) && op !in s.operations ::
                var t := SetAlone(s, op, subject, config, encodable, reachable, waited);
                && Ended(t, op, match r case Ok(_) => Ok(config) case Err(error) => Err(error))
                && Entries(t.cache) == cache
                && t.redis == if written.Some? then s.redis[subject := written.value] else s.redis
      ensures r == if !encodable then Err(DataEncoding) else if !reachable then Err(CantWriteData) else Ok(())
      ensures written == if r.Ok? then Some(Encoded(config)) else None
      ensures cache == if r.Ok? && cacheExpiry != 0 then old(cache)[subject := CachedEntry(now + waited, config)]
                       else old(cache)
    {
      forall s, op | Mirrors(s, now) && op !in s.operations
        ensures var t := SetAlone(s, op, subject, config, encodable, reachable, waited);
                && Ended(t, op, if !encodable then Err(DataEncoding)
                                else if !reachable then Err(CantWriteData) else Ok(config))
                && t.redis == (if encodable && reachable then s.redis[subject := Encoded(config)] else s.redis)
                && Entries(t.cache) == if encodable && reachable && cacheExpiry != 0
                                       then cache[subject := CachedEntry(now + waited, config)] else cache
      {
        WriteAlone(s, op, subject, config, encodable, reachable, waited);
      }
      if !encodable {
        return Err(DataEncoding), None;
      }
      if !reachable {
        return Err(CantWriteData), None;
      }
      r, written := Ok(()), Some(Encoded(config));
      if cacheExpiry != 0 {
        cache := cache[subject := CachedEntry(now + waited, config)];
      }
    }
  }

  // ----- What Redis held, and when -----

  lemma StepMovesOn(s: State, a: Action)
    requires Step(s, a).Some?
    ensures Step(s, a).value.steps == s.steps + 1 && Step(s, a).value.expiry == s.expiry
    ensures s.now <= Step(s, a).value.now
  {
  }

  lemma {:induction false} PrefixRuns(expiry: nat, actions: seq<Action>, k: nat)
    requires Run(expiry, actions).Some? && k <= |actions|
    ensures Run(expiry, actions[..k]).Some?
    ensures Run(expiry, actions[..k]).value.now <= Run(expiry, actions).value.now
    ensures Run(expiry, actions).value.steps == |actions| && Run(expiry, actions).value.expiry == expiry
  {
    assert actions[..|actions|] == actions;
    if actions != [] {
      var before := actions[..|actions| - 1];
      StepMovesOn(Run(expiry, before).value, actions[|actions| - 1]);
      PrefixRuns(expiry, before, if k < |actions| then k else |before|);
      if k < |actions| {
        assert before[..k] == actions[..k];
      }
    }
  }

  /** The time of the k-th state of a run. */
  function TimeAt(expiry: nat, actions: seq<Action>, k: nat): nat {
    if k <= |actions| && Run(expiry, actions[..k]).Some? then Run(expiry, actions[..k]).value.now else 0
  }

  /** Redis held exactly this configuration for the subject in the k-th state of the run. */
  predicate StoredAt(expiry: nat, actions: seq<Action>, subject: string, config: Json, k: nat) {
    && k <= |actions|
    && Run(expiry, actions[..k]).Some?
    && Lookup(Run(expiry, actions[..k]).value.redis, subject) == Some(Encoded(config))
  }

  /** The value that an insertion as next action would cache was accessed at most `delay` ago. */
  predicate InsertsInTime(expiry: nat, actions: seq<Action>, next: Action, delay: nat) {
    next.Insert? && Run(expiry, actions).Some? && next.op in Run(expiry, actions).value.operations ==>
      var phase := Run(expiry, actions).value.operations[next.op].phase;
      phase.Holding? ==> Run(expiry, actions).value.now <= TimeAt(expiry, actions, phase.accessed) + delay
  }

  /** Every operation of the run took at most `delay` from its Redis access to its insertion. */
  ghost predicate Punctual(expiry: nat, actions: seq<Action>, delay: nat) {
    forall k | 0 <= k < |actions| :: InsertsInTime(expiry, actions[..k], actions[k], delay)
  }

  ghost predicate CacheFits(expiry: nat, actions: seq<Action>, s: State, subject: string, delay: nat) {
    subject in s.cache ==>
      var cached := s.cache[subject];
      && expiry != 0
      && StoredAt(expiry, actions, subject, cached.entry.config, cached.accessed)
      && cached.entry.insertedAt <= TimeAt(expiry, actions, cached.accessed) + delay
  }

  ghost predicate OperationFits(expiry: nat, actions: seq<Action>, s: State, op: OpId, delay: nat) {
    op in s.operations ==>
      var operation := s.operations[op];
      && operation.began < s.steps
      && (operation.phase.Holding? ==>
            && operation.began < operation.phase.accessed
            && StoredAt(expiry, actions, operation.subject, operation.phase.config, operation.phase.accessed))
      && (operation.phase.Done? ==> TimeAt(expiry, actions, operation.began) <= operation.phase.finishedAt <= s.now)
      && (operation.phase.Done? && operation.phase.outcome.Ok? ==>
            && StoredAt(expiry, actions, operation.subject, operation.phase.outcome.value, operation.phase.accessed)
            && (|| operation.began < operation.phase.accessed
                || (expiry != 0
                    && operation.phase.finishedAt
                       < TimeAt(expiry, actions, operation.phase.accessed) + expiry + delay)))
  }

  ghost predicate Inv(expiry: nat, actions: seq<Action>, delay: nat)
    requires Run(expiry, actions).Some?
  {
    var s := Run(expiry, actions).value;
    && s.steps == |actions| && s.expiry == expiry
    && (forall subject :: CacheFits(expiry, actions, s, subject, delay))
    && (forall op :: OperationFits(expiry, actions, s, op, delay))
  }

  /** What was recorded about earlier states stays true as the run goes on. */
  lemma RecordsKeep(expiry: nat, actions: seq<Action>, a: Action, k: nat)
    requires k <= |actions|
    ensures TimeAt(expiry, actions + [a], k) == TimeAt(expiry, actions, k)
    ensures forall subject, config ::
              StoredAt(expiry, actions + [a], subject, config, k) == StoredAt(expiry, actions, subject, config, k)
  {
    assert (actions + [a])[..k] == actions[..k];
  }

  /** One more action: the records so far are kept, and time has not gone back. */
  lemma OneMore(expiry: nat, actions: seq<Action>, a: Action)
    requires Run(expiry, actions + [a]).Some?
    ensures Run(expiry, actions).Some? && Step(Run(expiry, actions).value, a) == Run(expiry, actions + [a])
    ensures TimeAt(expiry, actions + [a], |actions|) == Run(expiry, actions).value.now
    ensures TimeAt(expiry, actions + [a], |actions| + 1) == Run(expiry, actions + [a]).value.now
  {
    var all := actions + [a];
    assert all[..|all| - 1] == actions && all[..|actions|] == actions && all[..|actions| + 1] == all;
  }

  lemma StepKeepsCache(expiry: nat, actions: seq<Action>, a: Action, subject: string, delay: nat)
    requires Run(expiry, actions + [a]).Some? && Run(expiry, actions).Some? && Inv(expiry, actions, delay)
    requires InsertsInTime(expiry, actions, a, delay)
    ensures CacheFits(expiry, actions + [a], Run(expiry, actions + [a]).value, subject, delay)
  {
    OneMore(expiry, actions, a);
    var s, t := Run(expiry, actions).value, Run(expiry, actions + [a]).value;
    assert CacheFits(expiry, actions, s, subject, delay);
    if subject in t.cache {
      if subject in s.cache && t.cache[subject] == s.cache[subject] {
        RecordsKeep(expiry, actions, a, s.cache[subject].accessed);
      } else {
        InsertionFits(expiry, actions, a, subject, delay);
      }
    }
  }

  lemma InsertionFits(expiry: nat, actions: seq<Action>, a: Action, subject: string, delay: nat)
    requires Run(expiry, actions).Some? && Inv(expiry, actions, delay) && InsertsInTime(expiry, actions, a, delay)
    requires var s := Run(expiry, actions).value;
             && Step(s, a).Some? && subject in Step(s, a).value.cache
             && !(subject in s.cache && Step(s, a).value.cache[subject] == s.cache[subject])
    ensures CacheFits(expiry, actions + [a], Step(Run(expiry, actions).value, a).value, subject, delay)
  {
    var s := Run(expiry, actions).value;
    assert a.Insert? && s.operations[a.op].subject == subject;
    assert OperationFits(expiry, actions, s, a.op, delay);
    RecordsKeep(expiry, actions, a, s.operations[a.op].phase.accessed);
  }

  lemma UnchangedOperationFits(expiry: nat, actions: seq<Action>, a: Action, op: OpId, delay: nat)
    requires Run(expiry, actions).Some? && Inv(expiry, actions, delay) && op in Run(expiry, actions).value.operations
    requires var s := Run(expiry, actions).value;
             Step(s, a).Some? && op in Step(s, a).value.operations
             && Step(s, a).value.operations[op] == s.operations[op]
    ensures OperationFits(expiry, actions + [a], Step(Run(expiry, actions).value, a).value, op, delay)
  {
    var s := Run(expiry, actions).value;
    StepMovesOn(s, a);
    assert OperationFits(expiry, actions, s, op, delay);
    var operation := s.operations[op];
    RecordsKeep(expiry, actions, a, operation.began);
    if operation.phase.Holding? || (operation.phase.Done? && operation.phase.outcome.Ok?) {
      RecordsKeep(expiry, actions, a, operation.phase.accessed);
    }
  }

  lemma HitFits(expiry: nat, actions: seq<Action>, a: Action, delay: nat)
    requires Run(expiry, actions).Some? && Inv(expiry, actions, delay) && a.Look?
    requires Step(Run(expiry, actions).value, a).Some?
    ensures OperationFits(expiry, actions + [a], Step(Run(expiry, actions).value, a).value, a.op, delay)
  {
    var s := Run(expiry, actions).value;
    var operation := s.operations[a.op];
    assert OperationFits(expiry, actions, s, a.op, delay) && CacheFits(expiry, actions, s, operation.subject, delay);
    PrefixRuns(expiry, actions, operation.began);
    RecordsKeep(expiry, actions, a, operation.began);
    if operation.subject in s.cache {
      RecordsKeep(expiry, actions, a, s.cache[operation.subject].accessed);
    }
  }

  /** A Redis access ends the operation in an error, or holds what Redis then has for the subject. */
  lemma AccessHolds(s: State, a: Action)
    requires a.Access? && Step(s, a).Some?
    ensures var t := Step(s, a).value;
            && a.op in s.operations && a.op in t.operations
            && t.operations[a.op].subject == s.operations[a.op].subject
            && t.operations[a.op].began == s.operations[a.op].began
            && match t.operations[a.op].phase
               case Holding(config, accessed) =>
                 accessed == s.steps + 1 && Lookup(t.redis, t.operations[a.op].subject) == Some(Encoded(config))
               case Done(outcome, _, finishedAt) => outcome.Err? && finishedAt == s.now
               case _ => false
  {
  }

  lemma AccessFits(expiry: nat, actions: seq<Action>, a: Action, delay: nat)
    requires Run(expiry, actions).Some? && Inv(expiry, actions, delay) && a.Access?
    requires Run(expiry, actions + [a]).Some? && Step(Run(expiry, actions).value, a) == Run(expiry, actions + [a])
    ensures OperationFits(expiry, actions + [a], Run(expiry, actions + [a]).value, a.op, delay)
  {
    var s := Run(expiry, actions).value;
    AccessHolds(s, a);
    StepMovesOn(s, a);
    assert OperationFits(expiry, actions, s, a.op, delay);
    PrefixRuns(expiry, actions, s.operations[a.op].began);
    RecordsKeep(expiry, actions, a, s.operations[a.op].began);
    assert (actions + [a])[..|actions| + 1] == actions + [a];
  }

  lemma InsertFinishes(expiry: nat, actions: seq<Action>, a: Action, delay: nat)
    requires Run(expiry, actions).Some? && Inv(expiry, actions, delay) && (a.Insert? || a.FailEncoding?)
    requires Step(Run(expiry, actions).value, a).Some?
    ensures OperationFits(expiry, actions + [a], Step(Run(expiry, actions).value, a).value, a.op, delay)
  {
    var s := Run(expiry, actions).value;
    var operation := s.operations[a.op];
    assert OperationFits(expiry, actions, s, a.op, delay);
    PrefixRuns(expiry, actions, operation.began);
    RecordsKeep(expiry, actions, a, operation.began);
    if a.Insert? {
      RecordsKeep(expiry, actions, a, operation.phase.accessed);
    }
  }

  lemma StepKeepsOperation(expiry: nat, actions: seq<Action>, a: Action, op: OpId, delay: nat)
    requires Run(expiry, actions + [a]).Some? && Run(expiry, actions).Some? && Inv(expiry, actions, delay)
    ensures OperationFits(expiry, actions + [a], Run(expiry, actions + [a]).value, op, delay)
  {
    OneMore(expiry, actions, a);
    var s, t := Run(expiry, actions).value, Run(expiry, actions + [a]).value;
    StepMovesOn(s, a);
    if op in s.operations {
      if t.operations[op] == s.operations[op] {
        UnchangedOperationFits(expiry, actions, a, op, delay);
      } else if a.Look? {
        HitFits(expiry, actions, a, delay);
      } else if a.Access? {
        AccessFits(expiry, actions, a, delay);
      } else {
        InsertFinishes(expiry, actions, a, delay);
      }
    }
  }

  lemma {:induction false} RunKeepsInv(expiry: nat, actions: seq<Action>, delay: nat)
    requires Run(expiry, actions).Some? && Punctual(expiry, actions, delay)
    ensures Inv(expiry, actions, delay)
  {
    if actions != [] {
      var before, a := actions[..|actions| - 1], actions[|actions| - 1];
      assert actions == before + [a];
      forall k | 0 <= k < |before| ensures InsertsInTime(expiry, before[..k], before[k], delay) {
        assert before[..k] == actions[..k];
        assert InsertsInTime(expiry, actions[..k], actions[k], delay);
      }
      RunKeepsInv(expiry, before, delay);
      StepMovesOn(Run(expiry, before).value, a);
      assert InsertsInTime(expiry, actions[..|before|], actions[|before|], delay);
      forall subject ensures CacheFits(expiry, actions, Run(expiry, actions).value, subject, delay) {
        StepKeepsCache(expiry, before, a, subject, delay);
      }
      forall op ensures OperationFits(expiry, actions, Run(expiry, actions).value, op, delay) {
        StepKeepsOperation(expiry, before, a, op, delay);
      }
    }
  }

  // ----- Staleness -----

  predicate Succeeded(s: State, op: OpId) {
    op in s.operations && s.operations[op].phase.Done? && s.operations[op].phase.outcome.Ok?
  }

  /** The j-th state of the run is the first in which the operation is done. */
  predicate FinishesAt(expiry: nat, actions: seq<Action>, op: OpId, j: nat) {
    && 0 < j <= |actions| && Run(expiry, actions[..j]).Some? && Run(expiry, actions[..j - 1]).Some?
    && IsDone(Run(expiry, actions[..j]).value, op) && !IsDone(Run(expiry, actions[..j - 1]).value, op)
  }

  predicate IsDone(s: State, op: OpId) { op in s.operations && s.operations[op].phase.Done? }

  lemma DoneStays(s: State, a: Action, op: OpId)
    requires Step(s, a).Some?
    ensures IsDone(s, op) ==> op in Step(s, a).value.operations && Step(s, a).value.operations[op] == s.operations[op]
    ensures !IsDone(s, op) && IsDone(Step(s, a).value, op) ==>
              Step(s, a).value.operations[op].phase.finishedAt == Step(s, a).value.now
  {
  }

  /** Every operation that is done finished at some step, at the time that it records, and has not changed since. */
  lemma {:induction false} FinishingStep(expiry: nat, actions: seq<Action>, op: OpId) returns (j: nat)
    requires Run(expiry, actions).Some? && IsDone(Run(expiry, actions).value, op)
    ensures FinishesAt(expiry, actions, op, j)
    ensures Run(expiry, actions[..j]).value.operations[op] == Run(expiry, actions).value.operations[op]
    ensures TimeAt(expiry, actions, j) == Run(expiry, actions).value.operations[op].phase.finishedAt
  {
    var front, a := actions[..|actions| - 1], actions[|actions| - 1];
    assert actions == front + [a] && actions[..|actions|] == actions;
    DoneStays(Run(expiry, front).value, a, op);
    if IsDone(Run(expiry, front).value, op) {
      j := FinishingStep(expiry, front, op);
      assert front[..j] == actions[..j] && front[..j - 1] == actions[..j - 1];
    } else {
      j := |actions|;
    }
  }

  lemma PunctualPrefix(expiry: nat, actions: seq<Action>, delay: nat, j: nat)
    requires Punctual(expiry, actions, delay) && j <= |actions|
    ensures Punctual(expiry, actions[..j], delay)
  {
    forall k | 0 <= k < j ensures InsertsInTime(expiry, actions[..j][..k], actions[..j][k], delay) {
      assert actions[..j][..k] == actions[..k];
    }
  }

  /** The bounds on the state in which Redis held a returned value, read off the run up to its finishing step. */
  lemma FinishedValue(expiry: nat, actions: seq<Action>, op: OpId, delay: nat) returns (j: nat, k: nat)
    requires Run(expiry, actions).Some? && Punctual(expiry, actions, delay)
    requires Succeeded(Run(expiry, actions).value, op)
    ensures var operation := Run(expiry, actions).value.operations[op];
            && FinishesAt(expiry, actions, op, j) && k <= j
            && StoredAt(expiry, actions, operation.subject, operation.phase.outcome.value, k)
            && TimeAt(expiry, actions, k) <= TimeAt(expiry, actions, j) == operation.phase.finishedAt
            && (|| operation.began < k
                || (expiry != 0 && operation.phase.finishedAt < TimeAt(expiry, actions, k) + expiry + delay))
  {
    j := FinishingStep(expiry, actions, op);
    var prefix := actions[..j];
    PunctualPrefix(expiry, actions, delay, j);
    RunKeepsInv(expiry, prefix, delay);
    var operation := Run(expiry, prefix).value.operations[op];
    assert OperationFits(expiry, prefix, Run(expiry, prefix).value, op, delay);
    k := operation.phase.accessed;
    PrefixRuns(expiry, prefix, k);
    assert prefix[..k] == actions[..k];
  }

  /**
    Bounded staleness: a configuration that an operation returned was in Redis while the operation ran, after it
    began and no later than it finished, or less than the expiry plus one access-to-insertion delay before it
    finished. Hits do not extend that.
   */
  lemma ReturnedValueIsRecent(expiry: nat, actions: seq<Action>, op: OpId, delay: nat)
    requires Run(expiry, actions).Some? && Punctual(expiry, actions, delay)
    requires Succeeded(Run(expiry, actions).value, op)
    ensures var operation := Run(expiry, actions).value.operations[op];
            exists j: nat, k: nat ::
              && FinishesAt(expiry, actions, op, j) && k <= j
              && StoredAt(expiry, actions, operation.subject, operation.phase.outcome.value, k)
              && TimeAt(expiry, actions, k) <= operation.phase.finishedAt
              && (|| operation.began < k
                  || operation.phase.finishedAt < TimeAt(expiry, actions, k) + expiry + delay)
  {
    var j, k := FinishedValue(expiry, actions, op, delay);
  }

  lemma EveryRunIsPunctual(expiry: nat, actions: seq<Action>)
    requires Run(expiry, actions).Some?
    ensures Punctual(expiry, actions, Run(expiry, actions).value.now)
  {
    forall k | 0 <= k < |actions|
      ensures InsertsInTime(expiry, actions[..k], actions[k], Run(expiry, actions).value.now)
    {
      PrefixRuns(expiry, actions, k);
    }
  }

  /** Without a cache every value returned was in Redis while its operation ran, whatever the delays. */
  lemma UncachedValueIsCurrent(actions: seq<Action>, op: OpId)
    requires Run(0, actions).Some? && Succeeded(Run(0, actions).value, op)
    ensures var operation := Run(0, actions).value.operations[op];
            exists j: nat, k: nat ::
              && FinishesAt(0, actions, op, j) && operation.began < k <= j
              && StoredAt(0, actions, operation.subject, operation.phase.outcome.value, k)
  {
    EveryRunIsPunctual(0, actions);
    var j, k := FinishedValue(0, actions, op, Run(0, actions).value.now);
  }

  /**
    A request that begins once a configuration has been withdrawn for the expiry plus one delay gets none, if it
    stays withdrawn until the request is done; what is published later does not matter.
   */
  lemma WithdrawnConfigIsRefused(expiry: nat, actions: seq<Action>, op: OpId, gone: nat, end: nat, delay: nat)
    requires Run(expiry, actions).Some? && Punctual(expiry, actions, delay)
    requires IsDone(Run(expiry, actions).value, op) && FinishesAt(expiry, actions, op, end)
    requires var operation := Run(expiry, actions).value.operations[op];
             && gone <= operation.began
             && TimeAt(expiry, actions, gone) + expiry + delay <= TimeAt(expiry, actions, operation.began)
             && forall k, config | gone <= k <= end :: !StoredAt(expiry, actions, operation.subject, config, k)
    ensures Run(expiry, actions).value.operations[op].phase.outcome.Err?
  {
    var operation := Run(expiry, actions).value.operations[op];
    RunKeepsInv(expiry, actions, delay);
    assert OperationFits(expiry, actions, Run(expiry, actions).value, op, delay);
    if operation.phase.outcome.Ok? {
      var j, k := FinishedValue(expiry, actions, op, delay);
      FinishesOnce(expiry, actions, op, j, end);
      PrefixRuns(expiry, actions, gone);
      assert actions[..gone][..k] == actions[..k];
      PrefixRuns(expiry, actions[..gone], k);
    }
  }

  lemma FinishesOnce(expiry: nat, actions: seq<Action>, op: OpId, i: nat, j: nat)
    requires FinishesAt(expiry, actions, op, i) && FinishesAt(expiry, actions, op, j)
    ensures i == j
  {
    if i < j {
      assert actions[..j - 1][..i] == actions[..i];
      StaysDone(expiry, actions[..j - 1], op, i);
    } else if j < i {
      assert actions[..i - 1][..j] == actions[..j];
      StaysDone(expiry, actions[..i - 1], op, j);
    }
  }

  lemma {:induction false} StaysDone(expiry: nat, actions: seq<Action>, op: OpId, i: nat)
    requires Run(expiry, actions).Some? && i <= |actions|
    requires Run(expiry, actions[..i]).Some? && IsDone(Run(expiry, actions[..i]).value, op)
    ensures IsDone(Run(expiry, actions).value, op)
  {
    if i < |actions| {
      var front := actions[..|actions| - 1];
      assert front[..i] == actions[..i];
      StaysDone(expiry, front, op, i);
      DoneStays(Run(expiry, front).value, actions[|actions| - 1], op);
    } else {
      assert actions[..i] == actions;
    }
  }

  // ----- When the cache answers -----

  lemma {:induction false} InsertedBefore(expiry: nat, actions: seq<Action>, subject: string)
    requires Run(expiry, actions).Some? && subject in Run(expiry, actions).value.cache
    ensures Run(expiry, actions).value.cache[subject].entry.insertedAt <= Run(expiry, actions).value.now
  {
    if actions != [] {
      var front, a := actions[..|actions| - 1], actions[|actions| - 1];
      var s := Run(expiry, front).value;
      StepMovesOn(s, a);
      CacheAfterStep(s, a, subject);
      if subject in s.cache {
        InsertedBefore(expiry, front, subject);
      }
    }
  }

  lemma CacheAfterStep(s: State, a: Action, subject: string)
    requires Step(s, a).Some? && subject in Step(s, a).value.cache
    ensures var t := Step(s, a).value;
            || (subject in s.cache && t.cache[subject] == s.cache[subject])
            || (a.Insert? && t.cache[subject].entry.insertedAt == s.now)
  {
  }

  /**
    In every run a lookup is answered from the cache exactly if an entry is there that was inserted less than the
    expiry ago, and then with that entry, which stays; otherwise Redis is asked.
   */
  lemma CacheAnswersIff(expiry: nat, actions: seq<Action>, op: OpId)
    requires Run(expiry, actions).Some? && Step(Run(expiry, actions).value, Look(op)).Some?
    ensures var s, t := Run(expiry, actions).value, Step(Run(expiry, actions).value, Look(op)).value;
            && op in s.operations && op in t.operations && t.cache == s.cache && t.redis == s.redis
            && var subject, phase := s.operations[op].subject, t.operations[op].phase;
               && (phase.Done? <==> subject in s.cache && s.now < s.cache[subject].entry.insertedAt + expiry)
               && (phase.Done? ==> phase.outcome == Ok(s.cache[subject].entry.config))
               && (!phase.Done? ==> phase == Missed)
  {
    PrefixRuns(expiry, actions, 0);
    var s := Run(expiry, actions).value;
    if s.operations[op].subject in s.cache {
      InsertedBefore(expiry, actions, s.operations[op].subject);
    }
  }

  /** A lookup is possible for every get that has just begun. */
  lemma LookIff(s: State, op: OpId)
    ensures Step(s, Look(op)).Some?
            <==> op in s.operations && s.operations[op].write == None && s.operations[op].phase == Started
  {
  }

  // ----- Reading one's own writes -----

  /** Nothing cached or in flight for the subject is older than the m-th state. */
  ghost predicate NothingOlder(s: State, subject: string, m: nat) {
    && m <= s.steps
    && (subject in s.cache ==> m <= s.cache[subject].accessed)
    && forall op | op in s.operations && s.operations[op].subject == subject && s.operations[op].phase.Holding? ::
         m <= s.operations[op].phase.accessed
  }

  /** Successful operations on the subject that began at step `since` or later saw a state no older than the m-th. */
  ghost predicate LaterOnesFollow(s: State, subject: string, m: nat, since: nat) {
    forall op | Succeeded(s, op) && s.operations[op].subject == subject && since <= s.operations[op].began ::
      m <= s.operations[op].phase.accessed
  }

  /** One operation on the subject: neither what it holds nor, if it began late enough, what it returned is older. */
  predicate Follows(operation: Operation, m: nat, since: nat) {
    match operation.phase
    case Holding(_, accessed) => m <= accessed
    case Done(outcome, accessed, _) => outcome.Ok? && since <= operation.began ==> m <= accessed
    case _ => true
  }

  lemma StepFollows(s: State, a: Action, op: OpId, m: nat, since: nat)
    requires Step(s, a).Some? && op in Step(s, a).value.operations && m <= s.steps
    requires op in s.operations ==> Follows(s.operations[op], m, since)
    requires op in s.operations && s.operations[op].subject in s.cache ==>
               m <= s.cache[s.operations[op].subject].accessed
    ensures Follows(Step(s, a).value.operations[op], m, since)
  {
  }

  lemma StepKeepsFollowing(s: State, a: Action, subject: string, m: nat, since: nat)
    requires Step(s, a).Some? && NothingOlder(s, subject, m) && LaterOnesFollow(s, subject, m, since)
    ensures NothingOlder(Step(s, a).value, subject, m) && LaterOnesFollow(Step(s, a).value, subject, m, since)
  {
    var t := Step(s, a).value;
    forall op | op in t.operations && t.operations[op].subject == subject ensures Follows(t.operations[op], m, since) {
      if op in s.operations {
        SubjectStays(s, a, op);
      }
      StepFollows(s, a, op, m, since);
    }
    if subject in t.cache && !(subject in s.cache && t.cache[subject] == s.cache[subject]) {
      assert a.Insert? && s.operations[a.op].subject == subject;
    }
  }

  lemma SubjectStays(s: State, a: Action, op: OpId)
    requires Step(s, a).Some? && op in s.operations
    ensures op in Step(s, a).value.operations && Step(s, a).value.operations[op].subject == s.operations[op].subject
  {
  }

  /**
    After a write has been cached while no older value was in flight, every later read on this
    process sees the write or something newer, however the run goes on.
   */
  lemma {:induction false} ReadsFollowTheWrite(expiry: nat, actions: seq<Action>, rest: seq<Action>,
                                               subject: string, m: nat)
    requires Run(expiry, actions).Some? && Run(expiry, actions + rest).Some?
    requires NothingOlder(Run(expiry, actions).value, subject, m)
    ensures NothingOlder(Run(expiry, actions + rest).value, subject, m)
    ensures LaterOnesFollow(Run(expiry, actions + rest).value, subject, m, |actions|)
  {
    if rest == [] {
      assert actions + rest == actions;
      NoneBeganYet(expiry, actions);
    } else {
      var before, a := actions + rest[..|rest| - 1], rest[|rest| - 1];
      assert actions + rest == before + [a];
      OneMore(expiry, before, a);
      ReadsFollowTheWrite(expiry, actions, rest[..|rest| - 1], subject, m);
      StepKeepsFollowing(Run(expiry, before).value, a, subject, m, |actions|);
    }
  }

  lemma NoneBeganYet(expiry: nat, actions: seq<Action>)
    requires Run(expiry, actions).Some?
    ensures forall op | op in Run(expiry, actions).value.operations ::
              Run(expiry, actions).value.operations[op].began < |actions|
  {
    EveryRunIsPunctual(expiry, actions);
    RunKeepsInv(expiry, actions, Run(expiry, actions).value.now);
    forall op | op in Run(expiry, actions).value.operations
      ensures Run(expiry, actions).value.operations[op].began < |actions|
    {
      assert OperationFits(expiry, actions, Run(expiry, actions).value, op, Run(expiry, actions).value.now);
    }
  }

  /** The condition is needed: an older value in flight can be cached over the write and served to a new read. */
  lemma OlderValueIsServedAgain(expiry: nat, actions: seq<Action>, holder: OpId, reader: OpId)
    requires expiry != 0 && Run(expiry, actions).Some?
    requires var s := Run(expiry, actions).value;
             && holder in s.operations && s.operations[holder].phase.Holding? && reader !in s.operations
    ensures var held := Run(expiry, actions).value.operations[holder];
            var more := actions + [Insert(holder)] + [Begin(reader, held.subject, None)] + [Look(reader)];
            && Run(expiry, more).Some? && Succeeded(Run(expiry, more).value, reader)
            && Run(expiry, more).value.operations[reader].began == |actions| + 1
            && Run(expiry, more).value.operations[reader].phase.outcome.value == held.phase.config
            && Run(expiry, more).value.operations[reader].phase.accessed == held.phase.accessed
  {
    PrefixRuns(expiry, actions, 0);
    var held := Run(expiry, actions).value.operations[holder];
    var first := actions + [Insert(holder)];
    var second := first + [Begin(reader, held.subject, None)];
    Appended(expiry, actions, Insert(holder));
    Appended(expiry, first, Begin(reader, held.subject, None));
    Appended(expiry, second, Look(reader));
  }

  lemma FreshOp(ids: set<OpId>) returns (unused: OpId)
    ensures unused !in ids
  {
    unused := 0;
    var rest := ids;
    while rest != {}
      invariant forall id | id in ids :: id in rest || id < unused
      decreases rest
    {
      var id :| id in rest;
      rest, unused := rest - {id}, if unused <= id then id + 1 else unused;
    }
  }

  /** With a cache, later reads follow a write in every continuation exactly if no older value is in flight. */
  lemma ReadsFollowIff(expiry: nat, actions: seq<Action>, subject: string, m: nat)
    requires expiry != 0 && Run(expiry, actions).Some? && m <= |actions|
    requires var s := Run(expiry, actions).value; subject in s.cache ==> m <= s.cache[subject].accessed
    ensures NothingOlder(Run(expiry, actions).value, subject, m)
            <==> forall rest: seq<Action> | Run(expiry, actions + rest).Some? ::
                   LaterOnesFollow(Run(expiry, actions + rest).value, subject, m, |actions|)
  {
    var s := Run(expiry, actions).value;
    PrefixRuns(expiry, actions, 0);
    if NothingOlder(s, subject, m) {
      forall rest: seq<Action> | Run(expiry, actions + rest).Some?
        ensures LaterOnesFollow(Run(expiry, actions + rest).value, subject, m, |actions|)
      {
        ReadsFollowTheWrite(expiry, actions, rest, subject, m);
      }
    } else {
      var holder :| holder in s.operations && s.operations[holder].subject == subject
                    && s.operations[holder].phase.Holding? && s.operations[holder].phase.accessed < m;
      var reader := FreshOp(s.operations.Keys);
      OlderValueIsServedAgain(expiry, actions, holder, reader);
      var rest := [Insert(holder)] + [Begin(reader, subject, None)] + [Look(reader)];
      assert actions + rest == actions + [Insert(holder)] + [Begin(reader, subject, None)] + [Look(reader)];
      assert !LaterOnesFollow(Run(expiry, actions + rest).value, subject, m, |actions|);
    }
  }

  /** A get fetches the older value, a set then writes and caches a newer one, and the get has not inserted yet. */
  function RacingRun(subject: string, older: Json, written: Json): seq<Action> {
    RacingRead(subject, older) + [Begin(1, subject, Some(written))] + [Access(1, true)] + [Insert(1)]
  }

  /** Its first half: the value is read and held. */
  function RacingRead(subject: string, older: Json): seq<Action> {
    [Publish(subject, Encoded(older))] + [Begin(0, subject, None)] + [Look(0)] + [Access(0, true)]
  }

  lemma RacingReadHolds(expiry: nat, subject: string, older: Json)
    ensures Run(expiry, RacingRead(subject, older))
            == Some(State(expiry, 0, 4, map[subject := Encoded(older)], map[],
                          map[0 := Operation(subject, None, 1, Holding(older, 4))]))
  {
    var a1 := [Publish(subject, Encoded(older))];
    var a2 := a1 + [Begin(0, subject, None)];
    var a3 := a2 + [Look(0)];
    assert [] + a1 == a1;
    Appended(expiry, [], Publish(subject, Encoded(older)));
    Appended(expiry, a1, Begin(0, subject, None));
    Appended(expiry, a2, Look(0));
    Appended(expiry, a3, Access(0, true));
    var s := Run(expiry, RacingRead(subject, older)).value;
    assert s.redis == map[subject := Encoded(older)] && s.cache == map[];
    assert s.operations == map[0 := Operation(subject, None, 1, Holding(older, 4))];
  }

  lemma RacingRunHolds(expiry: nat, subject: string, older: Json, written: Json)
    requires expiry != 0
    ensures var actions := RacingRun(subject, older, written);
            && |actions| == 7 && Run(expiry, actions).Some?
            && var s := Run(expiry, actions).value;
               && Ended(s, 1, Ok(written)) && subject in s.cache && s.cache[subject].entry.config == written
               && Lookup(s.redis, subject) == Some(Encoded(written))
               && s.operations.Keys == {0, 1} && s.operations[0] == Operation(subject, None, 1, Holding(older, 4))
               && s.cache[subject].accessed == 6
  {
    var a4 := RacingRead(subject, older);
    var a5 := a4 + [Begin(1, subject, Some(written))];
    var a6 := a5 + [Access(1, true)];
    RacingReadHolds(expiry, subject, older);
    Appended(expiry, a4, Begin(1, subject, Some(written)));
    Appended(expiry, a5, Access(1, true));
    Appended(expiry, a6, Insert(1));
  }

  /** So a run from the start reaches it: the set has been cached, and a read begun afterwards gets the older value. */
  lemma CachedWriteIsOvertaken(expiry: nat, subject: string, older: Json, written: Json)
    requires expiry != 0
    ensures var actions := RacingRun(subject, older, written);
            && Run(expiry, actions).Some? && !NothingOlder(Run(expiry, actions).value, subject, 6)
            && Ended(Run(expiry, actions).value, 1, Ok(written))
    ensures var more := RacingRun(subject, older, written) + [Insert(0)] + [Begin(2, subject, None)] + [Look(2)];
            && Run(expiry, more).Some? && Ended(Run(expiry, more).value, 2, Ok(older))
            && Run(expiry, more).value.operations[2].began == 8
  {
    RacingRunHolds(expiry, subject, older, written);
    OlderValueIsServedAgain(expiry, RacingRun(subject, older, written), 0, 2);
  }

  lemma Appended(expiry: nat, actions: seq<Action>, a: Action)
    requires Run(expiry, actions).Some?
    ensures Run(expiry, actions + [a]) == Step(Run(expiry, actions).value, a)
  {
    var all := actions + [a];
    assert all[..|all| - 1] == actions;
  }
}
