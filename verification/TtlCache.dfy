/** The single-flight cache. */
module TtlCache {
  import opened Common
  import opened OrderedDicts

  // The dictionaries of core/cache.py, and the coroutines that meet in `get_or_fetch`.

  type Key = int
  type Value = int
  type LockId = nat
  type Task = nat

  /** The last two are history: the step at which the fetch behind a value began, None for a value put in
      by a plain `set`, and the time it was put in. */
  datatype Entry = Entry(value: Value, expiresAt: int, origin: Option<nat>, setAt: int)

  /** The fields of `TTLCache`. A `[Lock, waiters]` pair is named by its identity: `locks` is
      `_locks`, `waiters` the second half of each pair. */
  datatype Core = Core(
    store: ODict<Key, Entry>,
    locks: map<Key, LockId>,
    waiters: map<LockId, int>,
    nextLock: LockId,
    epochs: map<Key, int>)

  function Epoch(epochs: map<Key, int>, key: Key): int {
    if key in epochs then epochs[key] else 0
  }

  // --- the synchronous stretches -------------------------------------------------------------------

  function LiveEntry(c: Core, key: Key, now: int): Option<Entry> {
    if key in c.store.vals && now < c.store.vals[key].expiresAt then Some(c.store.vals[key]) else None
  }

  /** `get`: an expired entry is dropped on the way. */
  function AfterGet(c: Core, key: Key, now: int): Core {
    if key in c.store.vals && c.store.vals[key].expiresAt <= now then c.(store := c.store.Remove(key)) else c
  }

  function AfterBump(c: Core, key: Key): Core {
    c.(epochs := c.epochs[key := Epoch(c.epochs, key) + 1])
  }

  function AfterPrune(c: Core, key: Key): Core {
    if key !in c.store.vals && key !in c.locks then c.(epochs := c.epochs - {key}) else c
  }

  function Evict(c: Core, maxsize: nat): Core
    decreases |c.store.keys|
  {
    if |c.store.keys| <= maxsize then c
    else
      var oldest := c.store.keys[0];
      Evict(AfterPrune(c.(store := c.store.DropOldest()), oldest), maxsize)
  }

  function AfterSet(c: Core, key: Key, e: Entry, maxsize: nat): Core {
    Evict(c.(store := c.store.PutLast(key, e)), maxsize)
  }

  /** Every invalidation of single keys: the entry goes, and the generation of a key that some
      fetch may be holding goes up. */
  function AfterInvalidate(c: Core, doomed: set<Key>): Core {
    c.(store := c.store.Minus(doomed),
       epochs := map k | && k in c.epochs.Keys + c.locks.Keys && (k in c.epochs || k in doomed)
                         && (k in doomed ==> k in c.locks)
                   :: if k in doomed then Epoch(c.epochs, k) + 1 else c.epochs[k])
  }

  /** The keys `invalidate_if` looks at: stored, being fetched, or only remembered by generation. */
  function Matching(c: Core, p: Key -> bool): set<Key> {
    set k | k in c.store.vals.Keys + c.locks.Keys + c.epochs.Keys && p(k)
  }

  function AfterInvalidateAll(c: Core): Core {
    c.(store := ODict([], map[]),
       epochs := map k | k in c.epochs.Keys + c.locks.Keys :: Epoch(c.epochs, k) + 1)
  }

  function EnterLock(c: Core, key: Key): LockId {
    if key in c.locks then c.locks[key] else c.nextLock
  }

  /** From a miss to the wait for the key's lock. */
  function AfterEnter(c: Core, key: Key): Core {
    var lid := EnterLock(c, key);
    if key in c.locks && lid in c.waiters then c.(waiters := c.waiters[lid := c.waiters[lid] + 1])
    else c.(locks := c.locks[key := lid], waiters := c.waiters[lid := 1], nextLock := c.nextLock + 1)
  }

  /** The `finally` of `get_or_fetch`: the last one out drops the pair. */
  function AfterLeave(c: Core, key: Key, lid: LockId): Core {
    if lid in c.waiters && c.waiters[lid] - 1 > 0 then c.(waiters := c.waiters[lid := c.waiters[lid] - 1])
    else AfterPrune(c.(waiters := c.waiters - {lid}, locks := c.locks - {key}), key)
  }

  // --- coroutines --------------------------------------------------------------------------------------

  datatype Pc =
    | Waiting(key: Key, lid: LockId)
    | Fetching(key: Key, lid: LockId, epoch: int, born: nat)

  /** `holder` says which coroutine owns each asyncio lock, `tasks` which coroutines are inside the
      `try` of `get_or_fetch`. `step` numbers what happens; `cutoff` gives each key the number of its
      last invalidation; `hits` is what callers were given without a fetch, and when. */
  datatype State = State(
    core: Core,
    holder: map<LockId, Task>,
    tasks: map<Task, Pc>,
    clock: int,
    step: nat,
    cutoff: Key -> nat,
    hits: seq<Hit>)

  datatype Hit = Hit(key: Key, entry: Entry, at: int)

  datatype Step =
    | Call(t: Task, key: Key)
    | Resume(t: Task)
    | FetchOk(t: Task, value: Value)
    | FetchFail(t: Task)
    | CancelWait(t: Task)
    | Get(key: Key)
    | Set(key: Key, value: Value)
    | Invalidate(key: Key)
    | InvalidateIf(p: Key -> bool)
    | InvalidateAll
    | Tick(clock: int)

  datatype Config = Config(ttl: int, maxsize: nat)

  function Init(): State {
    State(Core(ODict([], map[]), map[], map[], 0, map[]), map[], map[], 0, 1, (k: Key) => 0, [])
  }

  /** The next state when only the cache changed. */
  function With(s: State, c: Core): State {
    State(c, s.holder, s.tasks, s.clock, s.step + 1, s.cutoff, s.hits)
  }

  /** What a look at the cache adds to the hits. */
  function Seen(s: State, key: Key): seq<Hit> {
    var live := LiveEntry(s.core, key, s.clock);
    if live.Some? then s.hits + [Hit(key, live.value, s.clock)] else s.hits
  }

  function Given(s: State, hits: seq<Hit>): State {
    State(s.core, s.holder, s.tasks, s.clock, s.step, s.cutoff, hits)
  }

  /** The next state when coroutine `t` left, releasing the lock if it held it. */
  function Departed(s: State, c: Core, t: Task): State
    requires t in s.tasks
  {
    var pc := s.tasks[t];
    State(AfterLeave(c, pc.key, pc.lid), HolderWithout(s.holder, pc), s.tasks - {t}, s.clock, s.step + 1, s.cutoff,
          s.hits)
  }

  function HolderWithout(holder: map<LockId, Task>, pc: Pc): map<LockId, Task> {
    if pc.Fetching? then holder - {pc.lid} else holder
  }

  /** What a finished fetch leaves in the cache: its value, unless its generation is over. */
  function AfterFetch(cfg: Config, s: State, pc: Pc, value: Value): Core
    requires pc.Fetching?
  {
    if Epoch(s.core.epochs, pc.key) == pc.epoch
    then AfterSet(s.core, pc.key, Entry(value, s.clock + cfg.ttl, Some(pc.born), s.clock), cfg.maxsize)
    else s.core
  }

  function DoCall(s: State, t: Task, key: Key): State {
    var c := AfterGet(s.core, key, s.clock);
    if t in s.tasks then With(s, s.core)
    else if LiveEntry(s.core, key, s.clock).Some? then With(Given(s, Seen(s, key)), c)
    else State(AfterEnter(c, key), s.holder, s.tasks[t := Waiting(key, EnterLock(c, key))], s.clock, s.step + 1,
               s.cutoff, s.hits)
  }

  /** The lock is acquired: a second look at the cache, then the generation is remembered and the
      fetch begins. */
  function DoResume(s: State, t: Task): State {
    if t !in s.tasks || !s.tasks[t].Waiting? || s.tasks[t].lid in s.holder then With(s, s.core)
    else
      var pc := s.tasks[t];
      var c := AfterGet(s.core, pc.key, s.clock);
      if LiveEntry(s.core, pc.key, s.clock).Some? then Departed(Given(s, Seen(s, pc.key)), c, t)
      else State(c, s.holder[pc.lid := t],
                 s.tasks[t := Fetching(pc.key, pc.lid, Epoch(c.epochs, pc.key), s.step)], s.clock, s.step + 1, s.cutoff,
                 s.hits)
  }

  function DoFetchOk(cfg: Config, s: State, t: Task, value: Value): State {
    if t in s.tasks && s.tasks[t].Fetching? then Departed(s, AfterFetch(cfg, s, s.tasks[t], value), t)
    else With(s, s.core)
  }

  function DoFetchFail(s: State, t: Task): State {
    if t in s.tasks && s.tasks[t].Fetching? then Departed(s, s.core, t) else With(s, s.core)
  }

  function DoCancelWait(s: State, t: Task): State {
    if t in s.tasks && s.tasks[t].Waiting? then Departed(s, s.core, t) else With(s, s.core)
  }

  function Plain(cfg: Config, s: State, value: Value): (e: Entry)
    ensures e.origin == None
  {
    Entry(value, s.clock + cfg.ttl, None, s.clock)
  }

  function DoSet(cfg: Config, s: State, key: Key, e: Entry): State {
    With(s, AfterSet(s.core, key, e, cfg.maxsize))
  }

  function DoInvalidate(s: State, c: Core, p: Key -> bool): State {
    State(c, s.holder, s.tasks, s.clock, s.step + 1, Raised(s.cutoff, p, s.step), s.hits)
  }

  function Only(key: Key): Key -> bool {
    k => k == key
  }

  function Any(): Key -> bool {
    k => true
  }

  /** One step of the system; a step that is not enabled only takes its number. */
  function Do(cfg: Config, s: State, a: Step): State {
    match a
    case Call(t, key) => DoCall(s, t, key)
    case Resume(t) => DoResume(s, t)
    case FetchOk(t, value) => DoFetchOk(cfg, s, t, value)
    case FetchFail(t) => DoFetchFail(s, t)
    case CancelWait(t) => DoCancelWait(s, t)
    case Get(key) => With(Given(s, Seen(s, key)), AfterGet(s.core, key, s.clock))
    case Set(key, value) => DoSet(cfg, s, key, Plain(cfg, s, value))
    case Invalidate(key) => DoInvalidate(s, AfterInvalidate(s.core, {key}), Only(key))
    case InvalidateIf(p) => DoInvalidate(s, AfterInvalidate(s.core, Matching(s.core, p)), p)
    case InvalidateAll => DoInvalidate(s, AfterInvalidateAll(s.core), Any())
    case Tick(clock) => State(s.core, s.holder, s.tasks, clock, s.step + 1, s.cutoff, s.hits)
  }

  function Raised(cutoff: Key -> nat, p: Key -> bool, n: nat): Key -> nat {
    (k: Key) => if p(k) then n else cutoff(k)
  }

  function Run(cfg: Config, s: State, steps: seq<Step>): State
    decreases |steps|
  {
    if steps == [] then s else Run(cfg, Do(cfg, s, steps[0]), steps[1..])
  }

  // --- what every run keeps ----------------------------------------------------------------------------

  ghost function Inside(tasks: map<Task, Pc>, lid: LockId): set<Task> {
    set t | t in tasks && tasks[t].lid == lid
  }

  /** Each key in flight has a lock pair of its own, the one its coroutines hold on to. */
  ghost predicate Keyed(locks: map<Key, LockId>, waiters: map<LockId, int>, nextLock: LockId, tasks: map<Task, Pc>) {
    && (forall k | k in locks :: locks[k] in waiters)
    && (forall k, l | k in locks && l in locks && k != l :: locks[k] != locks[l])
    && (forall lid | lid in waiters :: lid < nextLock)
    && (forall t | t in tasks :: tasks[t].key in locks && locks[tasks[t].key] == tasks[t].lid)
  }

  /** The waiter count is the number of coroutines inside, and no pair outlives its last one. */
  ghost predicate Counted(waiters: map<LockId, int>, tasks: map<Task, Pc>) {
    forall lid | lid in waiters :: 1 <= waiters[lid] == |Inside(tasks, lid)|
  }

  /** The coroutines that hold a lock are those that fetch, each under its own key's lock. */
  ghost predicate Held(holder: map<LockId, Task>, tasks: map<Task, Pc>) {
    && (forall lid | lid in holder ::
          holder[lid] in tasks && tasks[holder[lid]].Fetching? && tasks[holder[lid]].lid == lid)
    && (forall t | t in tasks && tasks[t].Fetching? :: tasks[t].lid in holder && holder[tasks[t].lid] == t)
  }

  ghost predicate LocksOk(s: State) {
    && Keyed(s.core.locks, s.core.waiters, s.core.nextLock, s.tasks)
    && Counted(s.core.waiters, s.tasks)
    && Held(s.holder, s.tasks)
  }

  /** The generation a fetch remembered is still current exactly when its key was not invalidated
      since the fetch began. */
  ghost predicate GenerationsOk(tasks: map<Task, Pc>, epochs: map<Key, int>, cutoff: Key -> nat, step: nat) {
    && (forall k: Key :: cutoff(k) < step)
    && (forall t | t in tasks && tasks[t].Fetching? ::
          && tasks[t].born < step
          && tasks[t].epoch <= Epoch(epochs, tasks[t].key)
          && (tasks[t].epoch == Epoch(epochs, tasks[t].key) <==> cutoff(tasks[t].key) < tasks[t].born))
  }

  /** Nothing stale is stored: a fetched value comes from a fetch begun after the last invalidation
      of its key. */
  ghost predicate NothingStale(entries: map<Key, Entry>, cutoff: Key -> nat) {
    forall k | k in entries && entries[k].origin.Some? :: cutoff(k) < entries[k].origin.value
  }

  ghost predicate Inv(cfg: Config, s: State) {
    match s
    case State(core, _, tasks, _, step, cutoff, _) =>
      && core.store.Ok() && |core.store.keys| <= cfg.maxsize
      && LocksOk(s)
      && GenerationsOk(tasks, core.epochs, cutoff, step)
      && NothingStale(core.store.vals, cutoff)
  }

  // --- the synchronous stretches, seen from a fetch in flight ------------------------------------------

  /** A stretch that invalidates nothing: locks stay, the generation of a key in flight stays, and
      the store only loses entries, except perhaps for `key`. */
  ghost predicate Quiet(a: Core, b: Core, maxsize: nat) {
    && b.locks == a.locks && b.waiters == a.waiters && b.nextLock == a.nextLock
    && (forall k | k in a.locks :: Epoch(b.epochs, k) == Epoch(a.epochs, k))
    && b.store.Ok() && |b.store.keys| <= maxsize
  }

  lemma GetIsQuiet(c: Core, key: Key, now: int, maxsize: nat)
    requires c.store.Ok() && |c.store.keys| <= maxsize
    ensures Quiet(c, AfterGet(c, key, now), maxsize)
    ensures forall k | k in AfterGet(c, key, now).store.vals ::
              k in c.store.vals && AfterGet(c, key, now).store.vals[k] == c.store.vals[k]
  {
    c.store.RemoveOk(key);
  }

  lemma {:induction false} EvictIsQuiet(c: Core, maxsize: nat)
    requires c.store.Ok()
    ensures Quiet(c, Evict(c, maxsize), maxsize)
    ensures forall k | k in Evict(c, maxsize).store.vals ::
              k in c.store.vals && Evict(c, maxsize).store.vals[k] == c.store.vals[k]
    decreases |c.store.keys|
  {
    if |c.store.keys| > maxsize {
      c.store.DropOldestOk();
      EvictIsQuiet(AfterPrune(c.(store := c.store.DropOldest()), c.store.keys[0]), maxsize);
    }
  }

  lemma SetIsQuiet(c: Core, key: Key, e: Entry, maxsize: nat)
    requires c.store.Ok()
    ensures Quiet(c, AfterSet(c, key, e, maxsize), maxsize)
    ensures forall k | k in AfterSet(c, key, e, maxsize).store.vals ::
              if k == key then AfterSet(c, key, e, maxsize).store.vals[k] == e
              else k in c.store.vals && AfterSet(c, key, e, maxsize).store.vals[k] == c.store.vals[k]
  {
    c.store.PutLastOk(key, e);
    EvictIsQuiet(c.(store := c.store.PutLast(key, e)), maxsize);
  }

  // --- entering and leaving --------------------------------------------------------------------------------

  lemma AloneInside(tasks: map<Task, Pc>, t: Task, u: Task)
    requires t in tasks && u in tasks && tasks[u].lid == tasks[t].lid
    requires |Inside(tasks, tasks[t].lid)| == 1
    ensures u == t
  {
    var inside := Inside(tasks, tasks[t].lid);
    assert t in inside && u in inside;
    assert |inside - {t}| == 0;
  }

  lemma LeaveCounted(waiters: map<LockId, int>, tasks: map<Task, Pc>, t: Task)
    requires Counted(waiters, tasks) && t in tasks && tasks[t].lid in waiters
    ensures var lid := tasks[t].lid;
            Counted(if waiters[lid] - 1 > 0 then waiters[lid := waiters[lid] - 1] else waiters - {lid}, tasks - {t})
  {
    var lid := tasks[t].lid;
    assert t in Inside(tasks, lid);
    assert Inside(tasks - {t}, lid) == Inside(tasks, lid) - {t};
    forall l | l != lid
      ensures Inside(tasks - {t}, l) == Inside(tasks, l)
    {
    }
  }

  lemma LeaveKeyed(locks: map<Key, LockId>, waiters: map<LockId, int>, nextLock: LockId, tasks: map<Task, Pc>, t: Task)
    requires Keyed(locks, waiters, nextLock, tasks) && Counted(waiters, tasks) && t in tasks
    ensures var lid := tasks[t].lid;
            if waiters[lid] - 1 > 0 then Keyed(locks, waiters[lid := waiters[lid] - 1], nextLock, tasks - {t})
            else Keyed(locks - {tasks[t].key}, waiters - {lid}, nextLock, tasks - {t})
  {
    var lid := tasks[t].lid;
    if waiters[lid] - 1 <= 0 {
      forall u | u in tasks && u != t
        ensures tasks[u].key != tasks[t].key
      {
        if tasks[u].lid == lid {
          AloneInside(tasks, t, u);
        }
      }
    }
  }

  lemma LeaveHeld(holder: map<LockId, Task>, tasks: map<Task, Pc>, t: Task)
    requires Held(holder, tasks) && t in tasks
    ensures Held(HolderWithout(holder, tasks[t]), tasks - {t})
  {
  }

  lemma LeaveLocks(s: State, c: Core, t: Task, maxsize: nat)
    requires LocksOk(s) && t in s.tasks && Quiet(s.core, c, maxsize)
    ensures LocksOk(Departed(s, c, t))
  {
    LeaveCounted(s.core.waiters, s.tasks, t);
    LeaveKeyed(s.core.locks, s.core.waiters, s.core.nextLock, s.tasks, t);
    LeaveHeld(s.holder, s.tasks, t);
  }

  /** A key still in flight after one coroutine left keeps its generation. */
  lemma LeaveKeepsEpochs(c: Core, key: Key, lid: LockId, k: Key)
    requires k in AfterLeave(c, key, lid).locks
    ensures k in c.locks && Epoch(AfterLeave(c, key, lid).epochs, k) == Epoch(c.epochs, k)
  {
  }

  /** A map of generations that agrees on every key in flight serves as well. */
  lemma SameGenerations(tasks: map<Task, Pc>, epochs: map<Key, int>, cutoff: Key -> nat, step: nat,
                        tasks': map<Task, Pc>, epochs': map<Key, int>, step': nat)
    requires GenerationsOk(tasks, epochs, cutoff, step) && step <= step'
    requires forall t | t in tasks' && tasks'[t].Fetching? ::
               t in tasks && tasks[t] == tasks'[t] && Epoch(epochs', tasks[t].key) == Epoch(epochs, tasks[t].key)
    ensures GenerationsOk(tasks', epochs', cutoff, step')
  {
  }

  lemma LeaveKeeps(cfg: Config, s: State, c: Core, t: Task)
    requires Inv(cfg, s) && t in s.tasks && Quiet(s.core, c, cfg.maxsize) && NothingStale(c.store.vals, s.cutoff)
    ensures Inv(cfg, Departed(s, c, t))
  {
    var n := Departed(s, c, t);
    var pc := s.tasks[t];
    LeaveLocks(s, c, t, cfg.maxsize);
    assert n.core.store == c.store;
    forall u | u in n.tasks
      ensures Epoch(n.core.epochs, s.tasks[u].key) == Epoch(s.core.epochs, s.tasks[u].key)
    {
      LeaveKeepsEpochs(c, pc.key, pc.lid, n.tasks[u].key);
    }
    SameGenerations(s.tasks, s.core.epochs, s.cutoff, s.step, n.tasks, n.core.epochs, n.step);
  }

  lemma EnterCounted(waiters: map<LockId, int>, tasks: map<Task, Pc>, t: Task, pc: Pc, first: bool)
    requires Counted(waiters, tasks) && t !in tasks
    requires if first then Inside(tasks, pc.lid) == {} else pc.lid in waiters
    ensures Counted(waiters[pc.lid := if first then 1 else waiters[pc.lid] + 1], tasks[t := pc])
  {
    assert Inside(tasks[t := pc], pc.lid) == Inside(tasks, pc.lid) + {t};
    forall l | l != pc.lid
      ensures Inside(tasks[t := pc], l) == Inside(tasks, l)
    {
    }
  }

  lemma NobodyInside(s: State)
    requires LocksOk(s)
    ensures Inside(s.tasks, s.core.nextLock) == {}
  {
    forall u | u in s.tasks
      ensures s.tasks[u].lid != s.core.nextLock
    {
      assert s.core.locks[s.tasks[u].key] in s.core.waiters;
    }
  }

  lemma EnterKeyed(locks: map<Key, LockId>, waiters: map<LockId, int>, nextLock: LockId, tasks: map<Task, Pc>, t: Task,
                   pc: Pc, n: int)
    requires Keyed(locks, waiters, nextLock, tasks) && t !in tasks
    requires if pc.key in locks then pc.lid == locks[pc.key] else pc.lid == nextLock
    ensures if pc.key in locks then Keyed(locks, waiters[pc.lid := n], nextLock, tasks[t := pc])
            else Keyed(locks[pc.key := pc.lid], waiters[pc.lid := n], nextLock + 1, tasks[t := pc])
  {
  }

  lemma EnterHeld(holder: map<LockId, Task>, tasks: map<Task, Pc>, t: Task, pc: Pc)
    requires Held(holder, tasks) && t !in tasks && pc.Waiting?
    ensures Held(holder, tasks[t := pc])
  {
  }

  lemma EnterLocks(s: State, c: Core, t: Task, key: Key, maxsize: nat)
    requires LocksOk(s) && t !in s.tasks && Quiet(s.core, c, maxsize)
    ensures LocksOk(s.(core := AfterEnter(c, key), tasks := s.tasks[t := Waiting(key, EnterLock(c, key))]))
  {
    var lid := EnterLock(c, key);
    var pc := Waiting(key, lid);
    EnterHeld(s.holder, s.tasks, t, pc);
    if key in c.locks {
      EnterCounted(c.waiters, s.tasks, t, pc, false);
      EnterKeyed(c.locks, c.waiters, c.nextLock, s.tasks, t, pc, c.waiters[lid] + 1);
    } else {
      NobodyInside(s);
      EnterCounted(c.waiters, s.tasks, t, pc, true);
      EnterKeyed(c.locks, c.waiters, c.nextLock, s.tasks, t, pc, 1);
    }
  }

  lemma ResumeLocks(s: State, c: Core, t: Task, epoch: int, born: nat, maxsize: nat)
    requires LocksOk(s) && t in s.tasks && s.tasks[t].Waiting? && s.tasks[t].lid !in s.holder
    requires Quiet(s.core, c, maxsize)
    ensures var pc := s.tasks[t];
            LocksOk(s.(core := c, holder := s.holder[pc.lid := t],
                       tasks := s.tasks[t := Fetching(pc.key, pc.lid, epoch, born)]))
  {
    var pc := s.tasks[t];
    var tasks := s.tasks[t := Fetching(pc.key, pc.lid, epoch, born)];
    forall lid
      ensures Inside(tasks, lid) == Inside(s.tasks, lid)
    {
    }
    assert Counted(c.waiters, tasks);
  }

  lemma InvalidateKeeps(cfg: Config, s: State, doomed: set<Key>, p: Key -> bool)
    requires Inv(cfg, s)
    requires forall k | k in doomed :: p(k)
    requires forall k | k in s.core.store.vals || k in s.core.locks || k in s.core.epochs :: p(k) ==> k in doomed
    ensures Inv(cfg, DoInvalidate(s, AfterInvalidate(s.core, doomed), p))
  {
    var c := AfterInvalidate(s.core, doomed);
    s.core.store.MinusOk(doomed);
    forall k | k in s.core.locks
      ensures Epoch(c.epochs, k) == Epoch(s.core.epochs, k) + (if k in doomed then 1 else 0)
    {
    }
    assert forall t | t in s.tasks :: s.tasks[t].key in s.core.locks;
  }

  /** A coroutine enters: it waits for its key's lock. */
  lemma EnterKeeps(cfg: Config, s: State, c: Core, t: Task, key: Key)
    requires Inv(cfg, s) && t !in s.tasks && Quiet(s.core, c, cfg.maxsize)
    requires forall k | k in c.store.vals :: k in s.core.store.vals && c.store.vals[k] == s.core.store.vals[k]
    ensures var tasks := s.tasks[t := Waiting(key, EnterLock(c, key))];
            Inv(cfg, State(AfterEnter(c, key), s.holder, tasks, s.clock, s.step + 1, s.cutoff, s.hits))
  {
    EnterLocks(s, c, t, key, cfg.maxsize);
    assert forall u | u in s.tasks :: s.tasks[u].key in s.core.locks;
    SameGenerations(s.tasks, s.core.epochs, s.cutoff, s.step, s.tasks[t := Waiting(key, EnterLock(c, key))], c.epochs,
                    s.step + 1);
  }

  lemma CallKeeps(cfg: Config, s: State, t: Task, key: Key)
    requires Inv(cfg, s)
    ensures Inv(cfg, DoCall(s, t, key))
  {
    var c := AfterGet(s.core, key, s.clock);
    GetIsQuiet(s.core, key, s.clock, cfg.maxsize);
    if t in s.tasks {
      QuietKeeps(cfg, s, s.core);
    } else if LiveEntry(s.core, key, s.clock).Some? {
      QuietKeeps(cfg, Given(s, Seen(s, key)), c);
    } else {
      EnterKeeps(cfg, s, c, t, key);
    }
  }

  lemma ResumeKeeps(cfg: Config, s: State, t: Task)
    requires Inv(cfg, s)
    ensures Inv(cfg, DoResume(s, t))
  {
    if t in s.tasks && s.tasks[t].Waiting? && s.tasks[t].lid !in s.holder {
      var key := s.tasks[t].key;
      var c := AfterGet(s.core, key, s.clock);
      GetIsQuiet(s.core, key, s.clock, cfg.maxsize);
      if LiveEntry(s.core, key, s.clock).Some? {
        LeaveKeeps(cfg, Given(s, Seen(s, key)), c, t);
      } else {
        ResumeLocks(s, c, t, Epoch(c.epochs, key), s.step, cfg.maxsize);
        assert forall u | u in s.tasks :: s.tasks[u].key in s.core.locks;
      }
    }
  }

  /** The heart of it: a value only goes in when no invalidation came between. */
  lemma AfterFetchSafe(cfg: Config, s: State, t: Task, value: Value)
    requires Inv(cfg, s) && t in s.tasks && s.tasks[t].Fetching?
    ensures Quiet(s.core, AfterFetch(cfg, s, s.tasks[t], value), cfg.maxsize)
    ensures NothingStale(AfterFetch(cfg, s, s.tasks[t], value).store.vals, s.cutoff)
  {
    var pc := s.tasks[t];
    SetIsQuiet(s.core, pc.key, Entry(value, s.clock + cfg.ttl, Some(pc.born), s.clock), cfg.maxsize);
  }

  lemma QuietKeeps(cfg: Config, s: State, c: Core)
    requires Inv(cfg, s) && Quiet(s.core, c, cfg.maxsize) && NothingStale(c.store.vals, s.cutoff)
    ensures Inv(cfg, With(s, c))
  {
    assert forall t | t in s.tasks :: s.tasks[t].key in s.core.locks;
    SameGenerations(s.tasks, s.core.epochs, s.cutoff, s.step, s.tasks, c.epochs, s.step + 1);
  }

  lemma FetchOkKeeps(cfg: Config, s: State, t: Task, value: Value)
    requires Inv(cfg, s)
    ensures Inv(cfg, DoFetchOk(cfg, s, t, value))
  {
    if t in s.tasks && s.tasks[t].Fetching? {
      AfterFetchSafe(cfg, s, t, value);
      LeaveKeeps(cfg, s, AfterFetch(cfg, s, s.tasks[t], value), t);
    } else {
      QuietKeeps(cfg, s, s.core);
    }
  }

  lemma InvalidateAllKeeps(cfg: Config, s: State, p: Key -> bool)
    requires Inv(cfg, s) && forall k: Key :: p(k)
    ensures Inv(cfg, DoInvalidate(s, AfterInvalidateAll(s.core), p))
  {
    assert forall t | t in s.tasks :: s.tasks[t].key in s.core.locks;
  }

  lemma FetchFailKeeps(cfg: Config, s: State, t: Task)
    requires Inv(cfg, s)
    ensures Inv(cfg, DoFetchFail(s, t))
  {
    QuietKeeps(cfg, s, s.core);
    if t in s.tasks {
      LeaveKeeps(cfg, s, s.core, t);
    }
  }

  lemma CancelWaitKeeps(cfg: Config, s: State, t: Task)
    requires Inv(cfg, s)
    ensures Inv(cfg, DoCancelWait(s, t))
  {
    QuietKeeps(cfg, s, s.core);
    if t in s.tasks {
      LeaveKeeps(cfg, s, s.core, t);
    }
  }

  lemma GetKeeps(cfg: Config, s: State, key: Key)
    requires Inv(cfg, s)
    ensures Inv(cfg, With(Given(s, Seen(s, key)), AfterGet(s.core, key, s.clock)))
  {
    GetIsQuiet(s.core, key, s.clock, cfg.maxsize);
    QuietKeeps(cfg, Given(s, Seen(s, key)), AfterGet(s.core, key, s.clock));
  }

  lemma SetKeeps(cfg: Config, s: State, key: Key, e: Entry)
    requires Inv(cfg, s) && e.origin == None
    ensures Inv(cfg, DoSet(cfg, s, key, e))
  {
    SetIsQuiet(s.core, key, e, cfg.maxsize);
    QuietKeeps(cfg, s, AfterSet(s.core, key, e, cfg.maxsize));
  }

  lemma TickKeeps(cfg: Config, s: State, clock: int)
    requires Inv(cfg, s)
    ensures Inv(cfg, State(s.core, s.holder, s.tasks, clock, s.step + 1, s.cutoff, s.hits))
  {
    QuietKeeps(cfg, s, s.core);
  }

  lemma CoroutineKeeps(cfg: Config, s: State, a: Step)
    requires Inv(cfg, s) && (a.Call? || a.Resume? || a.FetchOk? || a.FetchFail? || a.CancelWait?)
    ensures Inv(cfg, Do(cfg, s, a))
  {
    match a
    case Call(t, key) => CallKeeps(cfg, s, t, key);
    case Resume(t) => ResumeKeeps(cfg, s, t);
    case FetchOk(t, value) => FetchOkKeeps(cfg, s, t, value);
    case FetchFail(t) => FetchFailKeeps(cfg, s, t);
    case CancelWait(t) => CancelWaitKeeps(cfg, s, t);
  }

  lemma InvalidateOneKeeps(cfg: Config, s: State, key: Key)
    requires Inv(cfg, s)
    ensures Inv(cfg, DoInvalidate(s, AfterInvalidate(s.core, {key}), Only(key)))
  {
    var p := Only(key);
    assert forall k :: p(k) <==> k == key;
    InvalidateKeeps(cfg, s, {key}, p);
  }

  lemma InvalidateIfKeeps(cfg: Config, s: State, p: Key -> bool)
    requires Inv(cfg, s)
    ensures Inv(cfg, DoInvalidate(s, AfterInvalidate(s.core, Matching(s.core, p)), p))
  {
    InvalidateKeeps(cfg, s, Matching(s.core, p), p);
  }

  lemma DoKeeps(cfg: Config, s: State, a: Step)
    requires Inv(cfg, s)
    ensures Inv(cfg, Do(cfg, s, a))
  {
    match a
    case Get(key) => GetKeeps(cfg, s, key);
    case Set(key, value) => SetKeeps(cfg, s, key, Plain(cfg, s, value));
    case Invalidate(key) => InvalidateOneKeeps(cfg, s, key);
    case InvalidateIf(p) => InvalidateIfKeeps(cfg, s, p);
    case InvalidateAll => InvalidateAllKeeps(cfg, s, Any());
    case Tick(clock) => TickKeeps(cfg, s, clock);
    case _ => CoroutineKeeps(cfg, s, a);
  }

  lemma {:induction false} RunKeeps(cfg: Config, s: State, steps: seq<Step>)
    requires Inv(cfg, s)
    ensures Inv(cfg, Run(cfg, s, steps))
    decreases |steps|
  {
    if steps != [] {
      DoKeeps(cfg, s, steps[0]);
      RunKeeps(cfg, Do(cfg, s, steps[0]), steps[1..]);
    }
  }

  /** Over every run: nothing stale is stored, no key has two fetches in flight, and each waiter
      count is the number of coroutines inside. */
  lemma CacheIsSafe(cfg: Config, steps: seq<Step>)
    ensures var s := Run(cfg, Init(), steps);
            && NothingStale(s.core.store.vals, s.cutoff)
            && OneFetchPerKey(s.tasks)
            && Counted(s.core.waiters, s.tasks)
            && (forall k | k in s.core.locks :: InFlight(s.tasks, k))
            && |s.core.store.keys| <= cfg.maxsize
  {
    var s := Run(cfg, Init(), steps);
    RunKeeps(cfg, Init(), steps);
    forall k | k in s.core.locks
      ensures InFlight(s.tasks, k)
    {
      LockedKeyInFlight(s, k);
    }
  }

  ghost predicate OneFetchPerKey(tasks: map<Task, Pc>) {
    forall t, u | && t in tasks && u in tasks && tasks[t].Fetching? && tasks[u].Fetching?
                  && tasks[t].key == tasks[u].key ::
      t == u
  }

  ghost predicate InFlight(tasks: map<Task, Pc>, k: Key) {
    exists t :: t in tasks && tasks[t].key == k
  }

  lemma LockedKeyInFlight(s: State, k: Key)
    requires LocksOk(s) && k in s.core.locks
    ensures InFlight(s.tasks, k)
  {
    var lid := s.core.locks[k];
    Inhabited(Inside(s.tasks, lid));
    var t :| t in Inside(s.tasks, lid);
    assert s.tasks[t].key == k;
  }

  lemma {:induction false} EvictKeepsNewest(c: Core, maxsize: nat)
    requires c.store.Ok() && c.store.keys != [] && maxsize >= 1
    ensures var key := c.store.keys[|c.store.keys| - 1];
            && key in Evict(c, maxsize).store.vals
            && Evict(c, maxsize).store.vals[key] == c.store.vals[key]
    decreases |c.store.keys|
  {
    if |c.store.keys| > maxsize {
      c.store.DropOldestOk();
      assert c.store.keys[1..] != [];
      EvictKeepsNewest(AfterPrune(c.(store := c.store.DropOldest()), c.store.keys[0]), maxsize);
    }
  }

  lemma SetServes(c: Core, key: Key, e: Entry, maxsize: nat, now: int)
    requires c.store.Ok() && maxsize >= 1 && now < e.expiresAt
    ensures LiveEntry(AfterSet(c, key, e, maxsize), key, now) == Some(e)
  {
    c.store.PutLastOk(key, e);
    EvictKeepsNewest(c.(store := c.store.PutLast(key, e)), maxsize);
  }

  /** The generation still matches exactly when nothing invalidated the key since the fetch began. */
  lemma SameGenerationIff(cfg: Config, s: State, t: Task)
    requires Inv(cfg, s) && t in s.tasks && s.tasks[t].Fetching?
    ensures Epoch(s.core.epochs, s.tasks[t].key) == s.tasks[t].epoch <==> s.cutoff(s.tasks[t].key) < s.tasks[t].born
  {
  }

  lemma CutoffStays(cfg: Config, s: State, a: Step, k: Key)
    requires Inv(cfg, s)
    ensures s.cutoff(k) <= Do(cfg, s, a).cutoff(k)
  {
    match a
    case Call(t, key) =>
    case Resume(t) =>
    case FetchOk(t, value) =>
    case FetchFail(t) =>
    case CancelWait(t) =>
    case Get(key) =>
    case Set(key, value) =>
    case Invalidate(key) =>
    case InvalidateIf(p) =>
    case InvalidateAll =>
    case Tick(clock) =>
  }

  lemma {:induction false} CutoffsStay(cfg: Config, s: State, steps: seq<Step>, k: Key)
    requires Inv(cfg, s)
    ensures s.cutoff(k) <= Run(cfg, s, steps).cutoff(k)
    decreases |steps|
  {
    if steps != [] {
      CutoffStays(cfg, s, steps[0], k);
      DoKeeps(cfg, s, steps[0]);
      CutoffsStay(cfg, Do(cfg, s, steps[0]), steps[1..], k);
    }
  }

  /** Generations are bumped, forgotten and begun again at 0, but none comes back to a fetch: once its
      generation is over, a fetch in flight stays outdated for as long as it runs, and stores nothing. */
  lemma NoGenerationComesBack(cfg: Config, s: State, steps: seq<Step>, t: Task)
    requires Inv(cfg, s) && t in s.tasks && s.tasks[t].Fetching?
    requires Epoch(s.core.epochs, s.tasks[t].key) != s.tasks[t].epoch
    ensures var n, pc := Run(cfg, s, steps), s.tasks[t];
            t in n.tasks && n.tasks[t] == pc ==>
              && Epoch(n.core.epochs, pc.key) != pc.epoch
              && forall value :: AfterFetch(cfg, n, pc, value) == n.core
  {
    RunKeeps(cfg, s, steps);
    CutoffsStay(cfg, s, steps, s.tasks[t].key);
    SameGenerationIff(cfg, s, t);
    if t in Run(cfg, s, steps).tasks && Run(cfg, s, steps).tasks[t] == s.tasks[t] {
      SameGenerationIff(cfg, Run(cfg, s, steps), t);
    }
  }

  /** And no more is refused than must be: a finished fetch is in the cache right after its store exactly
      when no invalidation of its key came after it began; otherwise the cache is as before. */
  lemma FetchIsCachedIff(cfg: Config, s: State, t: Task, value: Value)
    requires Inv(cfg, s) && t in s.tasks && s.tasks[t].Fetching? && cfg.maxsize >= 1 && cfg.ttl > 0
    ensures var pc := s.tasks[t];
            if s.cutoff(pc.key) < pc.born
            then LiveEntry(AfterFetch(cfg, s, pc, value), pc.key, s.clock)
                 == Some(Entry(value, s.clock + cfg.ttl, Some(pc.born), s.clock))
            else AfterFetch(cfg, s, pc, value) == s.core
  {
    var pc := s.tasks[t];
    SameGenerationIff(cfg, s, t);
    SetServes(s.core, pc.key, Entry(value, s.clock + cfg.ttl, Some(pc.born), s.clock), cfg.maxsize, s.clock);
  }

  // --- time ---------------------------------------------------------------------------------------------------

  /** Every entry lives `ttl` from the time it was put in, and nobody was given one that had expired. */
  ghost predicate Timely(cfg: Config, entries: map<Key, Entry>, hits: seq<Hit>) {
    && (forall k | k in entries :: entries[k].expiresAt == entries[k].setAt + cfg.ttl)
    && (forall i | 0 <= i < |hits| ::
          hits[i].entry.expiresAt == hits[i].entry.setAt + cfg.ttl && hits[i].at < hits[i].entry.expiresAt)
  }

  lemma StaysTimely(cfg: Config, a: map<Key, Entry>, b: map<Key, Entry>, key: Key, e: Entry, hits: seq<Hit>)
    requires Timely(cfg, a, hits) && e.expiresAt == e.setAt + cfg.ttl
    requires forall k | k in b :: if k == key then b[k] == e || (k in a && b[k] == a[k]) else k in a && b[k] == a[k]
    ensures Timely(cfg, b, hits)
  {
  }

  lemma LookIsTimely(cfg: Config, s: State, key: Key)
    requires Timely(cfg, s.core.store.vals, s.hits) && s.core.store.Ok()
    ensures Timely(cfg, AfterGet(s.core, key, s.clock).store.vals, Seen(s, key))
  {
  }

  lemma PutIsTimely(cfg: Config, s: State, key: Key, e: Entry)
    requires Timely(cfg, s.core.store.vals, s.hits) && s.core.store.Ok() && e.expiresAt == e.setAt + cfg.ttl
    ensures Timely(cfg, AfterSet(s.core, key, e, cfg.maxsize).store.vals, s.hits)
  {
    SetIsQuiet(s.core, key, e, cfg.maxsize);
    StaysTimely(cfg, s.core.store.vals, AfterSet(s.core, key, e, cfg.maxsize).store.vals, key, e, s.hits);
  }

  lemma CallTimely(cfg: Config, s: State, t: Task, key: Key)
    requires Timely(cfg, s.core.store.vals, s.hits) && s.core.store.Ok()
    ensures var n := DoCall(s, t, key); Timely(cfg, n.core.store.vals, n.hits)
  {
    LookIsTimely(cfg, s, key);
    assert AfterEnter(AfterGet(s.core, key, s.clock), key).store == AfterGet(s.core, key, s.clock).store;
  }

  lemma ResumeTimely(cfg: Config, s: State, t: Task)
    requires Timely(cfg, s.core.store.vals, s.hits) && s.core.store.Ok()
    ensures var n := DoResume(s, t); Timely(cfg, n.core.store.vals, n.hits)
  {
    if t in s.tasks {
      var c := AfterGet(s.core, s.tasks[t].key, s.clock);
      LookIsTimely(cfg, s, s.tasks[t].key);
      assert AfterLeave(c, s.tasks[t].key, s.tasks[t].lid).store == c.store;
    }
  }

  lemma FetchTimely(cfg: Config, s: State, t: Task, value: Value)
    requires Timely(cfg, s.core.store.vals, s.hits) && s.core.store.Ok()
    ensures var n := DoFetchOk(cfg, s, t, value); Timely(cfg, n.core.store.vals, n.hits)
  {
    if t in s.tasks && s.tasks[t].Fetching? {
      var pc := s.tasks[t];
      var c := AfterFetch(cfg, s, pc, value);
      PutIsTimely(cfg, s, pc.key, Entry(value, s.clock + cfg.ttl, Some(pc.born), s.clock));
      assert AfterLeave(c, pc.key, pc.lid).store == c.store;
    }
  }

  lemma LossIsTimely(cfg: Config, s: State, doomed: set<Key>, t: Task)
    requires Timely(cfg, s.core.store.vals, s.hits)
    ensures Timely(cfg, AfterInvalidate(s.core, doomed).store.vals, s.hits)
    ensures Timely(cfg, AfterInvalidateAll(s.core).store.vals, s.hits)
    ensures Timely(cfg, DoFetchFail(s, t).core.store.vals, s.hits)
    ensures Timely(cfg, DoCancelWait(s, t).core.store.vals, s.hits)
  {
    if t in s.tasks {
      assert AfterLeave(s.core, s.tasks[t].key, s.tasks[t].lid).store == s.core.store;
    }
  }

  lemma DoTimely(cfg: Config, s: State, a: Step)
    requires Timely(cfg, s.core.store.vals, s.hits) && s.core.store.Ok()
    ensures Timely(cfg, Do(cfg, s, a).core.store.vals, Do(cfg, s, a).hits)
  {
    match a
    case Call(t, key) => CallTimely(cfg, s, t, key);
    case Resume(t) => ResumeTimely(cfg, s, t);
    case FetchOk(t, value) => FetchTimely(cfg, s, t, value);
    case FetchFail(t) => LossIsTimely(cfg, s, {}, t);
    case CancelWait(t) => LossIsTimely(cfg, s, {}, t);
    case Get(key) => LookIsTimely(cfg, s, key);
    case Set(key, value) => PutIsTimely(cfg, s, key, Plain(cfg, s, value));
    case Invalidate(key) => LossIsTimely(cfg, s, {key}, 0);
    case InvalidateIf(p) => LossIsTimely(cfg, s, Matching(s.core, p), 0);
    case InvalidateAll => LossIsTimely(cfg, s, {}, 0);
    case Tick(clock) =>
  }

  lemma {:induction false} RunTimely(cfg: Config, s: State, steps: seq<Step>)
    requires Inv(cfg, s) && Timely(cfg, s.core.store.vals, s.hits)
    ensures var n := Run(cfg, s, steps); Timely(cfg, n.core.store.vals, n.hits)
    decreases |steps|
  {
    if steps != [] {
      DoTimely(cfg, s, steps[0]);
      DoKeeps(cfg, s, steps[0]);
      RunTimely(cfg, Do(cfg, s, steps[0]), steps[1..]);
    }
  }

  /** Over every run, with a clock that may even go back: a value given out without a fetch was put in less
      than `ttl` before. */
  lemma NothingExpiredIsServed(cfg: Config, steps: seq<Step>, i: nat)
    ensures var s := Run(cfg, Init(), steps);
            i < |s.hits| ==> s.hits[i].at < s.hits[i].entry.setAt + cfg.ttl
  {
    var start := Init();
    RunTimely(cfg, start, steps);
  }

  /** And no more is fetched than must be: a caller, at its first look or at the second one behind the lock,
      goes away without a fetch exactly if the key is stored and not expired, and then with that entry. */
  lemma ServedIff(cfg: Config, s: State, t: Task, key: Key)
    ensures var live := key in s.core.store.vals && s.clock < s.core.store.vals[key].expiresAt;
            && (t !in s.tasks ==>
                  var n := Do(cfg, s, Call(t, key));
                  && (t !in n.tasks <==> live)
                  && n.hits == if live then s.hits + [Hit(key, s.core.store.vals[key], s.clock)] else s.hits)
            && (t in s.tasks && s.tasks[t].Waiting? && s.tasks[t].key == key && s.tasks[t].lid !in s.holder ==>
                  var n := Do(cfg, s, Resume(t));
                  && (t !in n.tasks <==> live) && (t in n.tasks ==> n.tasks[t].Fetching?)
                  && n.hits == if live then s.hits + [Hit(key, s.core.store.vals[key], s.clock)] else s.hits)
  {
  }

  lemma {:induction false} EvictCaps(c: Core, maxsize: nat)
    ensures Evict(c, maxsize).store == c.store.Capped(maxsize)
    decreases |c.store.keys|
  {
    if |c.store.keys| > maxsize {
      EvictCaps(AfterPrune(c.(store := c.store.DropOldest()), c.store.keys[0]), maxsize);
    }
  }

  /** Storing an entry evicts the oldest keys, and only as many as the store is then too long. */
  lemma SetEvictsTheOldest(c: Core, key: Key, e: Entry, maxsize: nat)
    requires c.store.Ok()
    ensures var d := AfterSet(c, key, e, maxsize).store;
            var keys := Without(c.store.keys, key) + [key];
            && d.Ok() && d.keys == (if |keys| <= maxsize then keys else keys[|keys| - maxsize..])
            && forall k | k in d.vals :: if k == key then d.vals[k] == e
                else k in c.store.vals && d.vals[k] == c.store.vals[k]
  {
    c.store.PutLastOk(key, e);
    EvictCaps(c.(store := c.store.PutLast(key, e)), maxsize);
    c.store.PutLast(key, e).CappedOk(maxsize);
    SetIsQuiet(c, key, e, maxsize);
  }

  // --- the object ------------------------------------------------------------------------------------------------

  lemma InvalidateNothing(c: Core)
    ensures AfterInvalidate(c, {}) == c
  {
    KeysOutsideNothing(c.store.keys, {});
    assert AfterInvalidate(c, {}).epochs == c.epochs;
    assert AfterInvalidate(c, {}).store == c.store;
  }

  /** Bumping, dropping and pruning one more key extends the invalidated set by it. */
  lemma InvalidateOneMore(c: Core, done: set<Key>, k: Key)
    requires k !in done
    ensures var b := AfterBump(AfterInvalidate(c, done), k);
            AfterPrune(b.(store := b.store.Remove(k)), k) == AfterInvalidate(c, done + {k})
  {
    KeysOutsideTwice(c.store.keys, done, k);
    var b := AfterBump(AfterInvalidate(c, done), k);
    var l, r := AfterPrune(b.(store := b.store.Remove(k)), k), AfterInvalidate(c, done + {k});
    assert l.store == r.store;
    assert l.epochs == r.epochs;
  }

  /** `_epochs` in the middle of `invalidate(None)`: the keys of `todo` still have their turn. */
  function BumpedExcept(c: Core, todo: set<Key>): map<Key, int> {
    map k | k in c.epochs.Keys + c.locks.Keys && (k in c.epochs || k !in todo)
      :: Epoch(c.epochs, k) + (if k in todo then 0 else 1)
  }

  lemma BumpOneMore(c: Core, todo: set<Key>, k: Key)
    requires k in todo && todo <= c.epochs.Keys + c.locks.Keys
    ensures var m := BumpedExcept(c, todo);
            m[k := Epoch(m, k) + 1] == BumpedExcept(c, todo - {k})
  {
  }

  lemma BumpEnds(c: Core)
    ensures BumpedExcept(c, c.epochs.Keys + c.locks.Keys) == c.epochs
    ensures BumpedExcept(c, {}) == AfterInvalidateAll(c).epochs
  {
  }

  class TTLCache {
    const ttl: int
    const maxsize: nat
    var store: ODict<Key, Entry>
    var locks: map<Key, LockId>
    var waiters: map<LockId, int>
    var nextLock: LockId
    var epochs: map<Key, int>

    ghost function C(): Core reads this {
      Core(store, locks, waiters, nextLock, epochs)
    }

    constructor (ttl: int, maxsize: nat)
      ensures C() == Init().core && this.ttl == ttl && this.maxsize == maxsize
    {
      this.ttl, this.maxsize := ttl, maxsize;
      store, locks, waiters, nextLock, epochs := ODict([], map[]), map[], map[], 0, map[];
    }

    method Get(key: Key, now: int) returns (hit: Option<Value>)
      modifies this
      ensures C() == AfterGet(old(C()), key, now)
      ensures hit.Some? <==> key in old(store).vals && now < old(store).vals[key].expiresAt
      ensures hit.Some? ==> hit.value == old(store).vals[key].value && store == old(store)
      ensures hit.None? ==> key !in store.vals && store.vals == old(store).vals - {key}
    {
      if key !in store.vals {
        return None;
      }
      var e := store.vals[key];
      if now >= e.expiresAt {
        store := store.Remove(key);
        return None;
      }
      return Some(e.value);
    }

    method PruneEpoch(key: Key)
      modifies this`epochs
      ensures C() == AfterPrune(old(C()), key)
    {
      if key !in store.vals && key !in locks {
        epochs := epochs - {key};
      }
    }

    method BumpEpoch(key: Key)
      modifies this`epochs
      ensures C() == AfterBump(old(C()), key)
    {
      epochs := epochs[key := (if key in epochs then epochs[key] else 0) + 1];
    }

    method Set(key: Key, value: Value, now: int, origin: Option<nat>)
      modifies this
      ensures C() == AfterSet(old(C()), key, Entry(value, now + ttl, origin, now), maxsize)
    {
      store := store.PutLast(key, Entry(value, now + ttl, origin, now));
      ghost var c := C();
      while |store.keys| > maxsize
        invariant Evict(C(), maxsize) == Evict(c, maxsize)
        invariant locks == c.locks && waiters == c.waiters && nextLock == c.nextLock
        decreases |store.keys|
      {
        var oldest := store.keys[0];
        store := store.DropOldest();
        PruneEpoch(oldest);
      }
    }

    method Invalidate(key: Key)
      modifies this
      ensures C() == AfterInvalidate(old(C()), {key})
      ensures store.vals == old(store).vals - {key}
    {
      ghost var c := C();
      InvalidateNothing(c);
      InvalidateOneMore(c, {}, key);
      assert {} + {key} == {key};
      BumpEpoch(key);
      store := store.Remove(key);
      PruneEpoch(key);
    }

    method InvalidateIf(p: Key -> bool)
      modifies this
      ensures C() == AfterInvalidate(old(C()), Matching(old(C()), p))
      ensures forall k :: k in store.vals <==> k in old(store).vals && !p(k)
    {
      ghost var c := C();
      InvalidateNothing(c);
      var doomed := set k | k in store.vals.Keys + locks.Keys + epochs.Keys && p(k);
      var todo := doomed;
      assert doomed - todo == {};
      while todo != {}
        invariant todo <= doomed && doomed == Matching(c, p)
        invariant C() == AfterInvalidate(c, doomed - todo)
        decreases |todo|
      {
        Inhabited(todo);
        var k :| k in todo;
        InvalidateOneMore(c, doomed - todo, k);
        assert doomed - (todo - {k}) == (doomed - todo) + {k};
        BumpEpoch(k);
        store := store.Remove(k);
        PruneEpoch(k);
        todo := todo - {k};
      }
      assert doomed - todo == doomed;
    }

    method InvalidateAll()
      modifies this
      ensures C() == AfterInvalidateAll(old(C()))
      ensures store.keys == [] && store.vals == map[]
    {
      ghost var c := C();
      var todo := epochs.Keys + locks.Keys;
      BumpEnds(c);
      while todo != {}
        invariant todo <= c.epochs.Keys + c.locks.Keys
        invariant epochs == BumpedExcept(c, todo)
        invariant store == c.store && locks == c.locks && waiters == c.waiters && nextLock == c.nextLock
        decreases |todo|
      {
        Inhabited(todo);
        var k :| k in todo;
        BumpOneMore(c, todo, k);
        BumpEpoch(k);
        todo := todo - {k};
      }
      store := ODict([], map[]);
    }

    /** The way into the `try` of `get_or_fetch`. */
    method Enter(key: Key) returns (lid: LockId)
      modifies this
      ensures C() == AfterEnter(old(C()), key) && lid == EnterLock(old(C()), key)
    {
      if key in locks && locks[key] in waiters {
        lid := locks[key];
        waiters := waiters[lid := waiters[lid] + 1];
      } else {
        lid := if key in locks then locks[key] else nextLock;
        locks, waiters, nextLock := locks[key := lid], waiters[lid := 1], nextLock + 1;
      }
    }

    /** Its `finally`. */
    method Leave(key: Key, lid: LockId)
      modifies this
      ensures C() == AfterLeave(old(C()), key, lid)
    {
      if lid in waiters && waiters[lid] - 1 > 0 {
        waiters := waiters[lid := waiters[lid] - 1];
      } else {
        waiters := waiters - {lid};
        locks := locks - {key};
        PruneEpoch(key);
      }
    }
  }
}
