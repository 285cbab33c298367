/** The shared key store as a protocol: requests read a snapshot and never wait, an expired
    snapshot makes a request spawn a refresh task, and a try-lock lets one task fetch
    (apps/core-server/src/sts_token_validator.rs).

    Requests, tasks and the clock take steps in any order. */
module JwksProtocol {
  import opened Wrappers
  import opened StsToken

  datatype Request =
    | Waiting(token: Token)                    // checked, about to read the store
    | HasRead(token: Token, snapshot: Jwks)    // store read, expiry not looked at yet
    | Ready(token: Token, snapshot: Jwks)      // a refresh was spawned if it was due
    | Admitted(token: Token, snapshot: Jwks)
    | Rejected(error: StsError)

  datatype Task =
    | Spawned
    | Fetching(retries: nat)
    | Fetched(jwks: Jwks)      // waiting for the write lock of the store
    | Written
    | Finished

  datatype State = State(
    now: Time, store: Jwks, lock: Option<int>, requests: map<int, Request>, tasks: map<int, Task>,
    results: seq<Jwks>)  // every complete result of a fetch, oldest first

  datatype Step =
    | Tick(to: Time)
    | Arrive(request: int, raw: string)
    | ReadStore(request: int)
    | CheckExpiry(request: int, task: int)
    | CheckKey(request: int)
    | TryLock(task: int)
    | FetchSucceeds(task: int, dto: seq<PublicJwk>, keys: map<string, Key>)
    | FetchUnparsable(task: int, dto: seq<PublicJwk>)
    | FetchFails(task: int)
    | GiveUp(task: int)
    | WriteStore(task: int)
    | Unlock(task: int)

  /** The server starts with the result of a first fetch. */
  ghost predicate Init(cfg: Config, s: State) {
    s.store.ttl == s.now + cfg.ttlJwks && s.lock == None && s.requests == map[] && s.tasks == map[] && s.results == [s.store]
  }

  ghost predicate Next(cfg: Config, s: State, step: Step, s': State) {
    match step
    case Tick(to) =>
      s.now <= to && s' == s.(now := to)
    case Arrive(r, raw) =>
      && r !in s.requests
      && s' == s.(requests := s.requests[r := match PreCheck(cfg, raw, s.now) { case Ok(token) => Waiting(token) case Err(e) => Rejected(e) }])
    case ReadStore(r) =>
      && r in s.requests && s.requests[r].Waiting?
      && s' == s.(requests := s.requests[r := HasRead(s.requests[r].token, s.store)])
    case CheckExpiry(r, t) =>
      && r in s.requests && s.requests[r].HasRead? && t !in s.tasks
      && var q := s.requests[r];
      && s' == s.(requests := s.requests[r := Ready(q.token, q.snapshot)],
                  tasks := if HasExpired(q.snapshot, s.now) then s.tasks[t := Spawned] else s.tasks)
    case CheckKey(r) =>
      && r in s.requests && s.requests[r].Ready? && s.requests[r].token.kid.Some?
      && var q := s.requests[r];
      && s' == s.(requests := s.requests[r := match CheckSignature(cfg, q.token, q.snapshot) {
                    case Ok(_) => Admitted(q.token, q.snapshot)
                    case Err(e) => Rejected(e) }])
    case TryLock(t) =>
      && t in s.tasks && s.tasks[t].Spawned?
      && s' == if s.lock.None? then s.(lock := Some(t), tasks := s.tasks[t := Fetching(0)])
               else s.(tasks := s.tasks[t := Finished])
    case FetchSucceeds(t, dto, keys) =>
      && t in s.tasks && s.tasks[t].Fetching? && s.tasks[t].retries <= cfg.maxRetries
      && AllParse(cfg, dto) && KeysOf(cfg, dto, keys)
      && var jwks := Jwks(s.now + cfg.ttlJwks, keys);
      && s' == s.(tasks := s.tasks[t := Fetched(jwks)], results := s.results + [jwks])
    case FetchUnparsable(t, dto) =>
      && t in s.tasks && s.tasks[t].Fetching? && s.tasks[t].retries <= cfg.maxRetries && !AllParse(cfg, dto)
      && s' == s.(tasks := s.tasks[t := Finished], lock := None)
    case FetchFails(t) =>
      && t in s.tasks && s.tasks[t].Fetching? && s.tasks[t].retries <= cfg.maxRetries
      && s' == s.(tasks := s.tasks[t := Fetching(s.tasks[t].retries + 1)])
    case GiveUp(t) =>
      && t in s.tasks && s.tasks[t].Fetching? && s.tasks[t].retries > cfg.maxRetries
      && s' == s.(tasks := s.tasks[t := Finished], lock := None)
    case WriteStore(t) =>
      && t in s.tasks && s.tasks[t].Fetched?
      && s' == s.(tasks := s.tasks[t := Written], store := s.tasks[t].jwks)
    case Unlock(t) =>
      && t in s.tasks && s.tasks[t].Written?
      && s' == s.(tasks := s.tasks[t := Finished], lock := None)
  }

  // ----- What every step keeps

  predicate InFlight(task: Task) {
    task.Fetching? || task.Fetched? || task.Written?
  }

  /** The lock is held exactly by the task that is fetching or storing. */
  ghost predicate LockRight(s: State) {
    && (s.lock.Some? ==> s.lock.value in s.tasks && InFlight(s.tasks[s.lock.value]))
    && (forall t | t in s.tasks && InFlight(s.tasks[t]) :: s.lock == Some(t))
  }

  /** Results are dated no later than the clock allows, in order, and what is stored or about to
      be stored is one of them; a result not stored yet is at least as late as the stored one. */
  ghost predicate ResultsRight(cfg: Config, s: State) {
    && s.store in s.results
    && (forall i | 0 <= i < |s.results| :: s.results[i].ttl <= s.now + cfg.ttlJwks)
    && (forall t | t in s.tasks && s.tasks[t].Fetched? :: s.tasks[t].jwks in s.results && s.store.ttl <= s.tasks[t].jwks.ttl)
  }

  ghost predicate RequestRight(cfg: Config, s: State, q: Request) {
    match q
    case Waiting(token) => token.kid.Some? && token.algorithm == "EdDSA"
    case HasRead(token, snapshot) => token.kid.Some? && token.algorithm == "EdDSA" && snapshot in s.results
    case Ready(token, snapshot) => token.kid.Some? && token.algorithm == "EdDSA" && snapshot in s.results
    case Admitted(token, snapshot) =>
      token.algorithm == "EdDSA" && snapshot in s.results && VerifiedBy(cfg, token, snapshot)
    case Rejected(_) => true
  }

  /** The key that the token's key id has in the snapshot verified the signature. */
  ghost predicate VerifiedBy(cfg: Config, token: Token, snapshot: Jwks) {
    && token.kid.Some? && token.kid.value in snapshot.keys
    && cfg.verify(snapshot.keys[token.kid.value], token.unverified, token.signature)
  }

  ghost predicate Inv(cfg: Config, s: State) {
    LockRight(s) && ResultsRight(cfg, s) && forall r | r in s.requests :: RequestRight(cfg, s, s.requests[r])
  }

  lemma InitInv(cfg: Config, s: State)
    requires Init(cfg, s)
    ensures Inv(cfg, s)
  {
  }

  lemma LockStaysRight(cfg: Config, s: State, step: Step, s': State)
    requires LockRight(s) && Next(cfg, s, step, s')
    ensures LockRight(s')
  {
  }

  lemma ResultsStayRight(cfg: Config, s: State, step: Step, s': State)
    requires LockRight(s) && ResultsRight(cfg, s) && Next(cfg, s, step, s')
    ensures ResultsRight(cfg, s')
  {
    match step
    case FetchSucceeds(t, dto, keys) =>
      var jwks := Jwks(s.now + cfg.ttlJwks, keys);
      assert s'.results[|s.results|] == jwks;
      assert forall j | j in s.results :: j in s'.results;
      var i :| 0 <= i < |s.results| && s.results[i] == s.store;
    case WriteStore(t) =>
    case _ =>
  }

  lemma RequestsStayRight(cfg: Config, s: State, step: Step, s': State, r: int)
    requires Inv(cfg, s) && Next(cfg, s, step, s') && r in s'.requests
    ensures RequestRight(cfg, s', s'.requests[r])
  {
    assert forall j | j in s.results :: j in s'.results;
    if r in s.requests {
      assert RequestRight(cfg, s, s.requests[r]);
    }
  }

  lemma NextInv(cfg: Config, s: State, step: Step, s': State)
    requires Inv(cfg, s) && Next(cfg, s, step, s')
    ensures Inv(cfg, s')
    ensures step.WriteStore? ==> step.task in s.tasks && s.tasks[step.task] == Fetched(s'.store)
    ensures forall t :: t in s'.tasks <==> t in s.tasks || FindsExpired(s, step, t)
  {
    LockStaysRight(cfg, s, step, s');
    ResultsStayRight(cfg, s, step, s');
    OnlyWritesChangeStore(cfg, s, step, s');
    forall t
      ensures t in s'.tasks <==> t in s.tasks || FindsExpired(s, step, t)
    {
      SpawnsIffExpired(cfg, s, step, s', t);
    }
    forall r | r in s'.requests
      ensures RequestRight(cfg, s', s'.requests[r])
    {
      RequestsStayRight(cfg, s, step, s', r);
    }
  }

  // ----- Whole runs

  ghost predicate Run(cfg: Config, states: seq<State>, steps: seq<Step>) {
    && |states| == |steps| + 1
    && Init(cfg, states[0])
    && forall i | 0 <= i < |steps| :: Next(cfg, states[i], steps[i], states[i + 1])
  }

  lemma {:induction false} RunInv(cfg: Config, states: seq<State>, steps: seq<Step>, i: nat)
    requires Run(cfg, states, steps) && i < |states|
    ensures Inv(cfg, states[i])
  {
    if i == 0 {
      InitInv(cfg, states[0]);
    } else {
      RunInv(cfg, states, steps, i - 1);
      NextInv(cfg, states[i - 1], steps[i - 1], states[i]);
    }
  }

  /** At most one fetch is in flight. */
  lemma OneFetchAtATime(cfg: Config, states: seq<State>, steps: seq<Step>, i: nat, t: int, t': int)
    requires Run(cfg, states, steps) && i < |states|
    requires t in states[i].tasks && InFlight(states[i].tasks[t]) && t' in states[i].tasks && InFlight(states[i].tasks[t'])
    ensures t == t'
  {
    RunInv(cfg, states, steps, i);
  }

  /** The stored keys are the complete result of one fetch: the one before the server started
      or one whose document parsed as a whole. */
  ghost predicate FetchedInRun(cfg: Config, states: seq<State>, steps: seq<Step>, i: nat, jwks: Jwks)
    requires |states| == |steps| + 1 && i < |states|
  {
    || jwks == states[0].store
    || exists m :: 0 <= m < i && CompletesWith(cfg, states[m], steps[m], jwks)
  }

  ghost predicate CompletesWith(cfg: Config, s: State, step: Step, jwks: Jwks) {
    step.FetchSucceeds? && AllParse(cfg, step.dto) && KeysOf(cfg, step.dto, jwks.keys) && jwks.ttl == s.now + cfg.ttlJwks
  }

  lemma {:induction false} ResultsAreFetched(cfg: Config, states: seq<State>, steps: seq<Step>, i: nat, jwks: Jwks)
    requires Run(cfg, states, steps) && i < |states| && jwks in states[i].results
    ensures FetchedInRun(cfg, states, steps, i, jwks)
  {
    if i > 0 {
      var s, step := states[i - 1], steps[i - 1];
      assert Next(cfg, s, step, states[i]);
      if jwks in s.results {
        ResultsAreFetched(cfg, states, steps, i - 1, jwks);
      } else {
        assert CompletesWith(cfg, s, step, jwks);
      }
    }
  }

  lemma StoreIsFetched(cfg: Config, states: seq<State>, steps: seq<Step>, i: nat)
    requires Run(cfg, states, steps) && i < |states|
    ensures FetchedInRun(cfg, states, steps, i, states[i].store)
  {
    RunInv(cfg, states, steps, i);
    ResultsAreFetched(cfg, states, steps, i, states[i].store);
  }

  /** Storing puts the task's result into the store; nothing else changes it, in particular no
      failed fetch does. */
  lemma OnlyWritesChangeStore(cfg: Config, s: State, step: Step, s': State)
    requires Inv(cfg, s) && Next(cfg, s, step, s')
    ensures s'.store != s.store ==> step.WriteStore? && s.tasks[step.task] == Fetched(s'.store)
    ensures step.WriteStore? ==> step.task in s.tasks && s.tasks[step.task] == Fetched(s'.store)
    ensures s.store.ttl <= s'.store.ttl
  {
  }

  /** The expiry of the stored keys never goes back. */
  lemma {:induction false} TtlNeverDecreases(cfg: Config, states: seq<State>, steps: seq<Step>, i: nat, j: nat)
    requires Run(cfg, states, steps) && i <= j < |states|
    ensures states[i].store.ttl <= states[j].store.ttl
    decreases j - i
  {
    if i < j {
      TtlNeverDecreases(cfg, states, steps, i, j - 1);
      RunInv(cfg, states, steps, j - 1);
      OnlyWritesChangeStore(cfg, states[j - 1], steps[j - 1], states[j]);
    }
  }

  /** This step of the task completed a fetch with these keys. */
  ghost predicate FetchedBy(cfg: Config, states: seq<State>, steps: seq<Step>, i: nat, t: int, jwks: Jwks, m: nat)
    requires |states| == |steps| + 1 && i < |states|
  {
    m < i && CompletesWith(cfg, states[m], steps[m], jwks) && steps[m].task == t
  }

  lemma {:induction false} TaskFetched(cfg: Config, states: seq<State>, steps: seq<Step>, i: nat, t: int) returns (m: nat)
    requires Run(cfg, states, steps) && i < |states| && t in states[i].tasks && states[i].tasks[t].Fetched?
    ensures FetchedBy(cfg, states, steps, i, t, states[i].tasks[t].jwks, m)
  {
    if i == 0 {
      assert false;
    } else {
      m := i - 1;
      assert Next(cfg, states[m], steps[m], states[i]);
      if t in states[m].tasks && states[m].tasks[t].Fetched? {
        m := TaskFetched(cfg, states, steps, i - 1, t);
      }
    }
  }

  /** What a task stores is what that very task fetched, valid from then on. */
  lemma WriteStoresFetched(cfg: Config, states: seq<State>, steps: seq<Step>, i: nat, t: int) returns (m: nat)
    requires Run(cfg, states, steps) && i < |steps| && steps[i] == WriteStore(t)
    ensures FetchedBy(cfg, states, steps, i, t, states[i + 1].store, m)
  {
    RunInv(cfg, states, steps, i);
    OnlyWritesChangeStore(cfg, states[i], steps[i], states[i + 1]);
    m := TaskFetched(cfg, states, steps, i, t);
  }

  // ----- Keys are refreshed exactly when they have expired

  /** The step looks at the expiry of the keys a request read and finds them expired. */
  ghost predicate FindsExpired(s: State, step: Step, t: int) {
    && step.CheckExpiry? && step.task == t && step.request in s.requests && s.requests[step.request].HasRead?
    && s.requests[step.request].snapshot.ttl < s.now
  }

  lemma SpawnsIffExpired(cfg: Config, s: State, step: Step, s': State, t: int)
    requires Next(cfg, s, step, s')
    ensures t in s'.tasks <==> t in s.tasks || FindsExpired(s, step, t)
  {
  }

  ghost predicate FoundExpired(states: seq<State>, steps: seq<Step>, i: nat, t: int)
    requires |states| == |steps| + 1 && i < |states|
  {
    exists m :: 0 <= m < i && FindsExpired(states[m], steps[m], t)
  }

  lemma FoundOneStepLater(states: seq<State>, steps: seq<Step>, i: nat, t: int)
    requires |states| == |steps| + 1 && i < |steps|
    ensures FoundExpired(states, steps, i + 1, t) <==> FoundExpired(states, steps, i, t) || FindsExpired(states[i], steps[i], t)
  {
  }

  /** A task exists exactly when a request has found its keys expired and spawned it. */
  lemma {:induction false} SpawnedIffExpired(cfg: Config, states: seq<State>, steps: seq<Step>, i: nat, t: int)
    requires Run(cfg, states, steps) && i < |states|
    ensures t in states[i].tasks <==> FoundExpired(states, steps, i, t)
  {
    if i > 0 {
      SpawnedIffExpired(cfg, states, steps, i - 1, t);
      FoundOneStepLater(states, steps, i - 1, t);
      SpawnsIffExpired(cfg, states[i - 1], steps[i - 1], states[i], t);
    }
  }

  /** At step `m` the request looked at the expiry of the keys it read, and the task was new
      after it exactly when they had expired. */
  ghost predicate LookedAt(states: seq<State>, steps: seq<Step>, i: nat, r: int, t: int, snapshot: Jwks, m: nat)
    requires |states| == |steps| + 1 && i < |states|
  {
    && m < i && steps[m] == CheckExpiry(r, t) && r in states[m].requests && states[m].requests[r].HasRead?
    && states[m].requests[r].snapshot == snapshot && t !in states[m].tasks
    && (t in states[m + 1].tasks <==> snapshot.ttl < states[m].now)
    && (snapshot.ttl < states[m].now ==> states[m + 1].tasks[t] == Spawned && t in states[i].tasks)
  }

  lemma LookedNow(cfg: Config, states: seq<State>, steps: seq<Step>, i: nat, r: int, t: int)
    requires Run(cfg, states, steps) && i < |steps| && steps[i] == CheckExpiry(r, t)
    ensures r in states[i].requests && states[i].requests[r].HasRead?
    ensures LookedAt(states, steps, i + 1, r, t, states[i].requests[r].snapshot, i)
  {
    assert Next(cfg, states[i], steps[i], states[i + 1]);
  }

  lemma LookedLasts(cfg: Config, states: seq<State>, steps: seq<Step>, i: nat, r: int, t: int, snapshot: Jwks, m: nat)
    requires Run(cfg, states, steps) && i < |steps| && LookedAt(states, steps, i, r, t, snapshot, m)
    ensures LookedAt(states, steps, i + 1, r, t, snapshot, m)
  {
    assert Next(cfg, states[i], steps[i], states[i + 1]);
  }

  /** A request that is past looking at the expiry has done so with the keys it goes on to use. */
  lemma {:induction false} RequestLooked(cfg: Config, states: seq<State>, steps: seq<Step>, i: nat, r: int) returns (t: int, m: nat)
    requires Run(cfg, states, steps) && i < |states| && r in states[i].requests
    requires states[i].requests[r].Ready? || states[i].requests[r].Admitted?
    ensures LookedAt(states, steps, i, r, t, states[i].requests[r].snapshot, m)
  {
    if i == 0 {
      assert false;
    } else {
      var j: nat := i - 1;
      assert Next(cfg, states[j], steps[j], states[i]);
      if steps[j].CheckExpiry? && steps[j].request == r {
        t, m := steps[j].task, j;
        LookedNow(cfg, states, steps, j, r, t);
      } else {
        t, m := RequestLooked(cfg, states, steps, j, r);
        LookedLasts(cfg, states, steps, j, r, t, states[j].requests[r].snapshot, m);
      }
    }
  }

  /** Every token that is checked against keys, admitted or not, is checked after its request has
      spawned a refresh if, and only if, these keys had expired. */
  lemma CheckedKeysWereLookedAt(cfg: Config, states: seq<State>, steps: seq<Step>, i: nat, r: int) returns (t: int, m: nat)
    requires Run(cfg, states, steps) && i < |steps| && steps[i] == CheckKey(r)
    ensures r in states[i].requests && states[i].requests[r].Ready?
    ensures LookedAt(states, steps, i, r, t, states[i].requests[r].snapshot, m)
  {
    assert Next(cfg, states[i], steps[i], states[i + 1]);
    t, m := RequestLooked(cfg, states, steps, i, r);
  }

  /** A task that finds the lock free can fetch and store on its own: if the document parses, its
      four steps end with the lock free and the new keys in the store, valid from the fetch on
      for the configured time. */
  lemma RefreshCompletes(cfg: Config, s: State, t: int, dto: seq<PublicJwk>, keys: map<string, Key>)
    returns (locked: State, fetched: State, written: State, done: State)
    requires t in s.tasks && s.tasks[t] == Spawned && s.lock == None && AllParse(cfg, dto) && KeysOf(cfg, dto, keys)
    ensures Next(cfg, s, TryLock(t), locked) && Next(cfg, locked, FetchSucceeds(t, dto, keys), fetched)
    ensures Next(cfg, fetched, WriteStore(t), written) && Next(cfg, written, Unlock(t), done)
    ensures done.lock == None && done.tasks[t] == Finished && done.now == s.now
    ensures done.store.keys == keys && done.store.ttl == s.now + cfg.ttlJwks && !(done.store.ttl < done.now)
  {
    locked := s.(lock := Some(t), tasks := s.tasks[t := Fetching(0)]);
    var jwks := Jwks(s.now + cfg.ttlJwks, keys);
    fetched := locked.(tasks := locked.tasks[t := Fetched(jwks)], results := s.results + [jwks]);
    written := fetched.(tasks := fetched.tasks[t := Written], store := jwks);
    done := written.(tasks := written.tasks[t := Finished], lock := None);
  }

  /** A request that carries a token passed every check on arrival. */
  ghost predicate ArrivedWith(cfg: Config, states: seq<State>, steps: seq<Step>, i: nat, r: int, token: Token)
    requires |states| == |steps| + 1 && i < |states|
  {
    exists m :: 0 <= m < i && steps[m].Arrive? && steps[m].request == r && PreCheck(cfg, steps[m].raw, states[m].now) == Ok(token)
  }

  /** The snapshot is what the store held when this very request read it. */
  ghost predicate ReadInRun(states: seq<State>, steps: seq<Step>, i: nat, r: int, snapshot: Jwks)
    requires |states| == |steps| + 1 && i < |states|
  {
    exists m :: 0 <= m < i && steps[m] == ReadStore(r) && states[m].store == snapshot
  }

  lemma {:induction false} TokensArrived(cfg: Config, states: seq<State>, steps: seq<Step>, i: nat, r: int)
    requires Run(cfg, states, steps) && i < |states| && r in states[i].requests && !states[i].requests[r].Rejected?
    ensures ArrivedWith(cfg, states, steps, i, r, states[i].requests[r].token)
  {
    if i > 0 {
      var s := states[i - 1];
      assert Next(cfg, s, steps[i - 1], states[i]);
      if r in s.requests {
        TokensArrived(cfg, states, steps, i - 1, r);
      }
    }
  }

  lemma {:induction false} SnapshotsWereRead(cfg: Config, states: seq<State>, steps: seq<Step>, i: nat, r: int)
    requires Run(cfg, states, steps) && i < |states| && r in states[i].requests
    requires !states[i].requests[r].Rejected? && !states[i].requests[r].Waiting?
    ensures ReadInRun(states, steps, i, r, states[i].requests[r].snapshot)
  {
    if i > 0 {
      var s := states[i - 1];
      assert Next(cfg, s, steps[i - 1], states[i]);
      if r in s.requests && !s.requests[r].Waiting? {
        SnapshotsWereRead(cfg, states, steps, i - 1, r);
      }
    }
  }

  /** Every admitted token passed all checks on arrival and was verified by the key its key id
      has in the snapshot that the same request read from the store. */
  lemma AdmittedIsVerified(cfg: Config, states: seq<State>, steps: seq<Step>, i: nat, r: int)
    requires Run(cfg, states, steps) && i < |states| && r in states[i].requests && states[i].requests[r].Admitted?
    ensures var q := states[i].requests[r];
            && ArrivedWith(cfg, states, steps, i, r, q.token)
            && ReadInRun(states, steps, i, r, q.snapshot)
            && FetchedInRun(cfg, states, steps, i, q.snapshot)
            && VerifiedBy(cfg, q.token, q.snapshot)
  {
    RunInv(cfg, states, steps, i);
    TokensArrived(cfg, states, steps, i, r);
    SnapshotsWereRead(cfg, states, steps, i, r);
    assert RequestRight(cfg, states[i], states[i].requests[r]);
    ResultsAreFetched(cfg, states, steps, i, states[i].requests[r].snapshot);
  }

  // ----- Every outcome is that of the sequential check

  /** Request `r` arrived at step `m` and its token passed the first checks. */
  ghost predicate PassedAt(cfg: Config, states: seq<State>, steps: seq<Step>, i: nat, r: int, m: nat, token: Token)
    requires |states| == |steps| + 1 && i < |states|
  {
    m < i && steps[m].Arrive? && steps[m].request == r && PreCheck(cfg, steps[m].raw, states[m].now) == Ok(token)
  }

  /** And at step `k` it read the store. */
  ghost predicate ReadAt(cfg: Config, states: seq<State>, steps: seq<Step>, i: nat, r: int, m: nat, k: nat, token: Token, snapshot: Jwks)
    requires |states| == |steps| + 1 && i < |states|
  {
    PassedAt(cfg, states, steps, i, r, m, token) && m < k < i && steps[k] == ReadStore(r) && states[k].store == snapshot
  }

  ghost predicate RefusedAt(cfg: Config, states: seq<State>, steps: seq<Step>, i: nat, r: int, m: nat, e: StsError)
    requires |states| == |steps| + 1 && i < |states|
  {
    m < i && steps[m].Arrive? && steps[m].request == r && PreCheck(cfg, steps[m].raw, states[m].now) == Err(e)
  }

  ghost predicate RefusedAfter(cfg: Config, states: seq<State>, steps: seq<Step>, i: nat, r: int, m: nat, k: nat, token: Token, e: StsError)
    requires |states| == |steps| + 1 && i < |states|
  {
    && m < k < i && token.kid.Some? && ReadAt(cfg, states, steps, i, r, m, k, token, states[k].store)
    && CheckSignature(cfg, token, states[k].store) == Err(e)
  }

  /** How a request came to where it is. */
  ghost predicate Traced(cfg: Config, states: seq<State>, steps: seq<Step>, i: nat, r: int, q: Request)
    requires |states| == |steps| + 1 && i < |states|
  {
    match q
    case Waiting(token) => exists m :: PassedAt(cfg, states, steps, i, r, m, token)
    case HasRead(token, snapshot) => exists m, k :: ReadAt(cfg, states, steps, i, r, m, k, token, snapshot)
    case Ready(token, snapshot) => exists m, k :: ReadAt(cfg, states, steps, i, r, m, k, token, snapshot)
    case Admitted(token, snapshot) =>
      && token.kid.Some? && CheckSignature(cfg, token, snapshot) == Ok(token)
      && exists m, k :: ReadAt(cfg, states, steps, i, r, m, k, token, snapshot)
    case Rejected(e) =>
      || (exists m :: RefusedAt(cfg, states, steps, i, r, m, e))
      || (exists m, k, token :: RefusedAfter(cfg, states, steps, i, r, m, k, token, e))
  }

  /** A trace stays one as the run goes on. */
  lemma TraceLasts(cfg: Config, states: seq<State>, steps: seq<Step>, i: nat, r: int, q: Request)
    requires |states| == |steps| + 1 && 0 < i < |states| && Traced(cfg, states, steps, i - 1, r, q)
    ensures Traced(cfg, states, steps, i, r, q)
  {
    var j: nat := i - 1;
    match q
    case Waiting(token) =>
      var m :| PassedAt(cfg, states, steps, j, r, m, token);
      assert PassedAt(cfg, states, steps, i, r, m, token);
    case Rejected(e) =>
      if m :| RefusedAt(cfg, states, steps, j, r, m, e) {
        assert RefusedAt(cfg, states, steps, i, r, m, e);
      } else {
        var m, k, token :| RefusedAfter(cfg, states, steps, j, r, m, k, token, e);
        assert RefusedAfter(cfg, states, steps, i, r, m, k, token, e);
      }
    case _ =>
      var m, k :| ReadAt(cfg, states, steps, j, r, m, k, q.token, q.snapshot);
      assert ReadAt(cfg, states, steps, i, r, m, k, q.token, q.snapshot);
  }

  lemma ArrivalTraced(cfg: Config, states: seq<State>, steps: seq<Step>, i: nat, r: int)
    requires Run(cfg, states, steps) && 0 < i < |states| && steps[i - 1].Arrive? && steps[i - 1].request == r
    ensures r in states[i].requests && Traced(cfg, states, steps, i, r, states[i].requests[r])
  {
    var m: nat := i - 1;
    assert Next(cfg, states[m], steps[m], states[i]);
    match PreCheck(cfg, steps[m].raw, states[m].now)
    case Ok(token) => assert PassedAt(cfg, states, steps, i, r, m, token);
    case Err(e) => assert RefusedAt(cfg, states, steps, i, r, m, e);
  }

  lemma ReadTraced(cfg: Config, states: seq<State>, steps: seq<Step>, i: nat, r: int)
    requires Run(cfg, states, steps) && 0 < i < |states| && steps[i - 1] == ReadStore(r) && r in states[i - 1].requests
    requires Traced(cfg, states, steps, i - 1, r, states[i - 1].requests[r])
    ensures r in states[i].requests && Traced(cfg, states, steps, i, r, states[i].requests[r])
  {
    var k: nat := i - 1;
    assert Next(cfg, states[k], steps[k], states[i]);
    var token := states[k].requests[r].token;
    var m :| PassedAt(cfg, states, steps, k, r, m, token);
    assert ReadAt(cfg, states, steps, i, r, m, k, token, states[k].store);
  }

  lemma CheckTraced(cfg: Config, states: seq<State>, steps: seq<Step>, i: nat, r: int)
    requires Run(cfg, states, steps) && 0 < i < |states| && steps[i - 1] == CheckKey(r) && r in states[i - 1].requests
    requires Traced(cfg, states, steps, i - 1, r, states[i - 1].requests[r])
    ensures r in states[i].requests && Traced(cfg, states, steps, i, r, states[i].requests[r])
  {
    assert Next(cfg, states[i - 1], steps[i - 1], states[i]);
    var q := states[i - 1].requests[r];
    var m, k :| ReadAt(cfg, states, steps, i - 1, r, m, k, q.token, q.snapshot);
    assert ReadAt(cfg, states, steps, i, r, m, k, q.token, q.snapshot);
    match CheckSignature(cfg, q.token, q.snapshot)
    case Ok(_) =>
    case Err(e) => assert RefusedAfter(cfg, states, steps, i, r, m, k, q.token, e);
  }

  /** A step that does not concern the request leaves it, or only looks at the expiry. */
  lemma OtherStepsKeep(cfg: Config, s: State, step: Step, s': State, r: int)
    requires Next(cfg, s, step, s') && r in s'.requests
    requires !(step.Arrive? && step.request == r) && step != ReadStore(r) && step != CheckKey(r)
    ensures r in s.requests
    ensures s'.requests[r] == s.requests[r]
            || (s.requests[r].HasRead? && s'.requests[r] == Ready(s.requests[r].token, s.requests[r].snapshot))
  {
  }

  lemma {:induction false} RequestTraced(cfg: Config, states: seq<State>, steps: seq<Step>, i: nat, r: int)
    requires Run(cfg, states, steps) && i < |states| && r in states[i].requests
    ensures Traced(cfg, states, steps, i, r, states[i].requests[r])
  {
    if i > 0 {
      var s, step := states[i - 1], steps[i - 1];
      assert Next(cfg, s, step, states[i]);
      if step.Arrive? && step.request == r {
        ArrivalTraced(cfg, states, steps, i, r);
      } else if step == ReadStore(r) {
        RequestTraced(cfg, states, steps, i - 1, r);
        ReadTraced(cfg, states, steps, i, r);
      } else if step == CheckKey(r) {
        RequestTraced(cfg, states, steps, i - 1, r);
        CheckTraced(cfg, states, steps, i, r);
      } else {
        OtherStepsKeep(cfg, s, step, states[i], r);
        RequestTraced(cfg, states, steps, i - 1, r);
        TraceLasts(cfg, states, steps, i, r, s.requests[r]);
      }
    }
  }

  /** The request arrived at step `m` and its outcome is that of the sequential check at that
      time, with the keys it read at step `k`, or with any keys if it never came to read them. */
  ghost predicate ChecksOut(cfg: Config, states: seq<State>, steps: seq<Step>, i: nat, r: int, m: nat, k: nat, result: Result<Token, StsError>)
    requires |states| == |steps| + 1 && i < |states|
  {
    && m <= k < i && steps[m].Arrive? && steps[m].request == r
    && (m < k ==> steps[k] == ReadStore(r))
    && (m == k ==> PreCheck(cfg, steps[m].raw, states[m].now).Err?)
    && ValidateToken(cfg, steps[m].raw, states[m].now, states[k].store) == result
  }

  function OutcomeOf(q: Request): Result<Token, StsError>
    requires q.Admitted? || q.Rejected?
  {
    if q.Admitted? then Ok(q.token) else Err(q.error)
  }

  /** In every run, whatever the interleaving, a finished request has exactly the outcome that the
      sequential check has for the time it arrived and the keys it read. */
  lemma OutcomeIsSequential(cfg: Config, states: seq<State>, steps: seq<Step>, i: nat, r: int)
    requires Run(cfg, states, steps) && i < |states| && r in states[i].requests
    requires states[i].requests[r].Admitted? || states[i].requests[r].Rejected?
    ensures exists m, k :: ChecksOut(cfg, states, steps, i, r, m, k, OutcomeOf(states[i].requests[r]))
  {
    RequestTraced(cfg, states, steps, i, r);
    var q := states[i].requests[r];
    if q.Admitted? {
      var m, k :| ReadAt(cfg, states, steps, i, r, m, k, q.token, q.snapshot);
      assert ChecksOut(cfg, states, steps, i, r, m, k, OutcomeOf(q));
    } else if m :| RefusedAt(cfg, states, steps, i, r, m, q.error) {
      assert ChecksOut(cfg, states, steps, i, r, m, m, OutcomeOf(q));
    } else {
      var m, k, token :| RefusedAfter(cfg, states, steps, i, r, m, k, token, q.error);
      assert ChecksOut(cfg, states, steps, i, r, m, k, OutcomeOf(q));
    }
  }

  // ----- The lock is not held forever

  /** How many steps a task has left at most. */
  ghost function StepsLeft(cfg: Config, task: Task): nat {
    match task
    case Spawned => cfg.maxRetries + 4
    case Fetching(n) => if n <= cfg.maxRetries then cfg.maxRetries - n + 3 else 1
    case Fetched(_) => 2
    case Written => 1
    case Finished => 0
  }

  ghost function TaskOf(step: Step): Option<int> {
    match step
    case TryLock(t) => Some(t)
    case FetchSucceeds(t, _, _) => Some(t)
    case FetchUnparsable(t, _) => Some(t)
    case FetchFails(t) => Some(t)
    case GiveUp(t) => Some(t)
    case WriteStore(t) => Some(t)
    case Unlock(t) => Some(t)
    case _ => None
  }

  /** Every step of a task brings it closer to its end, and no other step changes it. */
  lemma TaskProgress(cfg: Config, s: State, step: Step, s': State, t: int)
    requires Next(cfg, s, step, s') && t in s.tasks
    ensures t in s'.tasks
    ensures TaskOf(step) == Some(t) ==> StepsLeft(cfg, s'.tasks[t]) < StepsLeft(cfg, s.tasks[t])
    ensures TaskOf(step) != Some(t) ==> s'.tasks[t] == s.tasks[t]
  {
  }

  /** The task that holds the lock always has a step to take that needs no other task. */
  lemma HolderCanMove(cfg: Config, s: State) returns (step: Step, s': State)
    requires Inv(cfg, s) && s.lock.Some?
    ensures Next(cfg, s, step, s') && TaskOf(step) == s.lock
  {
    var t := s.lock.value;
    match s.tasks[t]
    case Fetching(n) =>
      if n <= cfg.maxRetries {
        step, s' := FetchFails(t), s.(tasks := s.tasks[t := Fetching(n + 1)]);
      } else {
        step, s' := GiveUp(t), s.(tasks := s.tasks[t := Finished], lock := None);
      }
    case Fetched(jwks) =>
      step, s' := WriteStore(t), s.(tasks := s.tasks[t := Written], store := jwks);
    case Written =>
      step, s' := Unlock(t), s.(tasks := s.tasks[t := Finished], lock := None);
  }

  /** How many of the first `i` steps are the task's. */
  ghost function StepsTaken(steps: seq<Step>, i: nat, t: int): nat
    requires i <= |steps|
  {
    if i == 0 then 0 else StepsTaken(steps, i - 1, t) + if TaskOf(steps[i - 1]) == Some(t) then 1 else 0
  }

  /** Steps taken and steps left never exceed the bound a new task starts with. */
  lemma {:induction false} StepsAreBounded(cfg: Config, states: seq<State>, steps: seq<Step>, i: nat, t: int)
    requires Run(cfg, states, steps) && i < |states|
    ensures t in states[i].tasks ==> StepsTaken(steps, i, t) + StepsLeft(cfg, states[i].tasks[t]) <= cfg.maxRetries + 4
    ensures t !in states[i].tasks ==> StepsTaken(steps, i, t) == 0
  {
    if i > 0 {
      StepsAreBounded(cfg, states, steps, i - 1, t);
      assert Next(cfg, states[i - 1], steps[i - 1], states[i]);
      if t in states[i - 1].tasks {
        TaskProgress(cfg, states[i - 1], steps[i - 1], states[i], t);
      }
    }
  }

  /** In every run a task takes at most four steps more than the retries, and one that has taken
      them is finished and does not hold the lock. */
  lemma LockIsReleased(cfg: Config, states: seq<State>, steps: seq<Step>, i: nat, t: int)
    requires Run(cfg, states, steps) && i < |states|
    ensures StepsTaken(steps, i, t) <= cfg.maxRetries + 4
    ensures StepsTaken(steps, i, t) == cfg.maxRetries + 4 ==>
              t in states[i].tasks && states[i].tasks[t] == Finished && states[i].lock != Some(t)
  {
    StepsAreBounded(cfg, states, steps, i, t);
    RunInv(cfg, states, steps, i);
  }
}
