/** Mutual exclusion by a forgetful table. */
module PeerLocking {
  import opened Common
  import opened OrderedDicts
  import opened LockTables

  // What the bounded lock table of core/message_store.py means for mutual exclusion: coroutines ask the table
  // for their peer's lock, wait for it or take it, and record sync times while they hold it. Both asking and
  // recording run the eviction loops of LockTables.

  type Peer = int
  type Task = nat
  type LockId = nat

  /** `peerOf` remembers what each lock ever made was for; `orphans` the locks that left the table while
      some coroutine was about to take them. */
  datatype State = State(
    table: ODict<Peer, LockId>,
    times: ODict<Peer, int>,
    holder: map<LockId, Task>,
    waiting: map<Task, LockId>,
    peerOf: map<LockId, Peer>,
    next: LockId,
    orphans: set<LockId>)

  datatype Step =
    | Ask(t: Task, peer: Peer, now: int)
    | Remember(lid: LockId, now: int)
    | Wake(t: Task)
    | Cancel(t: Task)
    | Leave(lid: LockId)

  predicate Busy(s: State, t: Task) {
    t in s.waiting || exists lid | lid in s.holder :: s.holder[lid] == t
  }

  function LockFor(s: State, peer: Peer): LockId {
    if peer in s.table.vals then s.table.vals[peer] else s.next
  }

  predicate Wanted(waiting: map<Task, LockId>, lid: LockId) {
    exists t | t in waiting :: waiting[t] == lid
  }

  // --- the table and its eviction -------------------------------------------------------------------

  /** The table as the eviction loops see it: who is held. */
  ghost function Flags(table: ODict<Peer, LockId>, holder: map<LockId, Task>): Locks {
    ODict(table.keys, map p | p in table.vals :: table.vals[p] in holder)
  }

  ghost function Kept(s: State, table: ODict<Peer, LockId>, times: ODict<Peer, int>, cap: nat, now: int)
    : ODict<Peer, LockId>
  {
    var after := Forget(Flags(table, s.holder), times, cap, now).1;
    ODict(after.keys, map p | p in table.vals && p in after.vals :: table.vals[p])
  }

  ghost function KeptTimes(s: State, table: ODict<Peer, LockId>, times: ODict<Peer, int>, cap: nat, now: int)
    : ODict<Peer, int>
  {
    Forget(Flags(table, s.holder), times, cap, now).0
  }

  /** The locks that leave the table although somebody is about to take them: the one just asked for,
      and those with a waiter that was woken but has not run yet. */
  ghost function Lost(before: map<Peer, LockId>, after: map<Peer, LockId>, waiting: map<Task, LockId>, asked: set<Peer>)
    : set<LockId>
  {
    set p | p in before && p !in after && (p in asked || Wanted(waiting, before[p])) :: before[p]
  }

  ghost function Asked(s: State, peer: Peer): ODict<Peer, LockId> {
    s.table.PutLast(peer, LockFor(s, peer))
  }

  /** `async with self._peer_lock(peer)` up to the first wait: the lock comes from the table or is new,
      the table is cut, and a free lock nobody waits for is taken at once. */
  ghost function DoAsk(cap: nat, s: State, t: Task, peer: Peer, now: int): State {
    if Busy(s, t) then s
    else
      var lid := LockFor(s, peer);
      var table := Kept(s, Asked(s, peer), s.times, cap, now);
      var free := lid !in s.holder && !Wanted(s.waiting, lid);
      State(table, KeptTimes(s, Asked(s, peer), s.times, cap, now),
            if free then s.holder[lid := t] else s.holder,
            if free then s.waiting else s.waiting[t := lid],
            s.peerOf[lid := peer],
            if lid == s.next then s.next + 1 else s.next,
            s.orphans + Lost(Asked(s, peer).vals, table.vals, s.waiting, {peer}))
  }

  ghost function Synced(s: State, lid: LockId, now: int): ODict<Peer, int>
    requires lid in s.peerOf
  {
    s.times.PutLast(s.peerOf[lid], now)
  }

  /** `_remember_sync`, from inside a held lock. */
  ghost function DoRemember(cap: nat, s: State, lid: LockId, now: int): State {
    if lid !in s.holder || lid !in s.peerOf then s
    else
      var times := Synced(s, lid, now);
      var table := Kept(s, s.table, times, cap, now);
      State(table, KeptTimes(s, s.table, times, cap, now), s.holder, s.waiting, s.peerOf, s.next,
            s.orphans + Lost(s.table.vals, table.vals, s.waiting, {}))
  }

  ghost function Do(cap: nat, s: State, a: Step): State {
    match a
    case Ask(t, peer, now) => DoAsk(cap, s, t, peer, now)
    case Remember(lid, now) => DoRemember(cap, s, lid, now)
    case Wake(t) =>
      if t in s.waiting && s.waiting[t] !in s.holder
      then State(s.table, s.times, s.holder[s.waiting[t] := t], s.waiting - {t}, s.peerOf, s.next, s.orphans)
      else s
    case Cancel(t) => State(s.table, s.times, s.holder, s.waiting - {t}, s.peerOf, s.next, s.orphans)
    case Leave(lid) => DoLeave(s, lid)
  }

  function DoLeave(s: State, lid: LockId): State {
    State(s.table, s.times, s.holder - {lid}, s.waiting, s.peerOf, s.next, s.orphans)
  }

  ghost function Run(cap: nat, s: State, steps: seq<Step>): State
    decreases |steps|
  {
    if steps == [] then s else Run(cap, Do(cap, s, steps[0]), steps[1..])
  }

  const START := State(ODict([], map[]), ODict([], map[]), map[], map[], map[], 0, {})

  // --- the invariant -----------------------------------------------------------------------------------

  /** A lock is its peer's lock in the table, or an orphan. */
  ghost predicate Placed(table: map<Peer, LockId>, peerOf: map<LockId, Peer>, orphans: set<LockId>, lid: LockId) {
    lid in peerOf && (lid in orphans || (peerOf[lid] in table && table[peerOf[lid]] == lid))
  }

  ghost predicate Named(table: map<Peer, LockId>, peerOf: map<LockId, Peer>, next: LockId) {
    && (forall p | p in table :: table[p] in peerOf && peerOf[table[p]] == p)
    && (forall lid | lid in peerOf :: lid < next)
  }

  ghost predicate UsesOk(s: State) {
    && (forall lid | lid in s.holder :: Placed(s.table.vals, s.peerOf, s.orphans, lid))
    && (forall t | t in s.waiting :: Placed(s.table.vals, s.peerOf, s.orphans, s.waiting[t]))
  }

  ghost predicate HasOrphan(peerOf: map<LockId, Peer>, orphans: set<LockId>, p: Peer) {
    exists lid | lid in orphans :: lid in peerOf && peerOf[lid] == p
  }

  /** A sync time belongs to a lock in the table, or to a peer one of whose locks was orphaned. */
  ghost predicate TimesOk(s: State) {
    forall p | p in s.times.vals :: p in s.table.vals || HasOrphan(s.peerOf, s.orphans, p)
  }

  ghost predicate Inv(s: State) {
    && s.table.Ok() && s.times.Ok()
    && Named(s.table.vals, s.peerOf, s.next)
    && UsesOk(s) && TimesOk(s)
  }

  /** What an eviction keeps: only free locks go, and their sync times with them. */
  lemma KeptOk(s: State, table: ODict<Peer, LockId>, times: ODict<Peer, int>, cap: nat, now: int)
    requires table.Ok() && times.Ok()
    ensures var after, times' := Kept(s, table, times, cap, now), KeptTimes(s, table, times, cap, now);
            && after.Ok() && times'.Ok()
            && (forall p | p in after.vals :: p in table.vals && after.vals[p] == table.vals[p])
            && (forall p | p in table.vals && table.vals[p] in s.holder :: p in after.vals)
            && (forall p | p in times'.vals :: p in times.vals && (p in table.vals ==> p in after.vals))
  {
    var d := Flags(table, s.holder);
    ForgetIsSafe(d, times, cap, now);
    ForgetTimes(d, times, cap, now);
    var after := Forget(d, times, cap, now).1;
    assert forall p | p in after.vals :: p in d.vals;
  }

  ghost predicate Cut(before: map<Peer, LockId>, after: map<Peer, LockId>, holder: map<LockId, Task>) {
    && (forall p | p in after :: p in before && after[p] == before[p])
    && (forall p | p in before && before[p] in holder :: p in after)
  }

  /** A lock somebody holds, waits for or has just asked for is in the cut table, or lost to it. */
  lemma PlacedAfter(before: map<Peer, LockId>, after: map<Peer, LockId>, holder: map<LockId, Task>,
                    waiting: map<Task, LockId>, asked: set<Peer>, peerOf: map<LockId, Peer>,
                    orphans: set<LockId>, lid: LockId)
    requires Placed(before, peerOf, orphans, lid) && Cut(before, after, holder)
    requires lid in holder || Wanted(waiting, lid) || peerOf[lid] in asked
    ensures Placed(after, peerOf, orphans + Lost(before, after, waiting, asked), lid)
  {
    var p, lost := peerOf[lid], Lost(before, after, waiting, asked);
    if lid in orphans {
      assert lid in orphans + lost;
    } else if p in after {
      assert after[p] == lid;
    } else {
      assert before[p] == lid && (p in asked || Wanted(waiting, before[p]));
      assert before[p] in lost;
    }
  }

  lemma AskedOk(s: State, peer: Peer)
    requires Inv(s)
    ensures var lid := LockFor(s, peer);
            && Asked(s, peer).Ok()
            && Named(Asked(s, peer).vals, s.peerOf[lid := peer], if lid == s.next then s.next + 1 else s.next)
            && lid <= s.next && (forall l | l in s.peerOf :: s.peerOf[lid := peer][l] == s.peerOf[l])
  {
    s.table.PutLastOk(peer, LockFor(s, peer));
  }

  lemma AskUses(cap: nat, s: State, t: Task, peer: Peer, now: int, lid: LockId)
    requires Inv(s) && !Busy(s, t) && (lid in s.holder || Wanted(s.waiting, lid) || lid == LockFor(s, peer))
    ensures var n := DoAsk(cap, s, t, peer, now); Placed(n.table.vals, n.peerOf, n.orphans, lid)
  {
    var n, put := DoAsk(cap, s, t, peer, now), Asked(s, peer);
    AskedOk(s, peer);
    KeptOk(s, put, s.times, cap, now);
    assert Placed(put.vals, n.peerOf, s.orphans, lid);
    PlacedAfter(put.vals, n.table.vals, s.holder, s.waiting, {peer}, n.peerOf, s.orphans, lid);
  }

  lemma AskTimes(cap: nat, s: State, t: Task, peer: Peer, now: int)
    requires Inv(s) && !Busy(s, t)
    ensures TimesOk(DoAsk(cap, s, t, peer, now))
  {
    var n, put := DoAsk(cap, s, t, peer, now), Asked(s, peer);
    AskedOk(s, peer);
    KeptOk(s, put, s.times, cap, now);
    forall p | p in n.times.vals
      ensures p in n.table.vals || HasOrphan(n.peerOf, n.orphans, p)
    {
      if p !in put.vals {
        var lid :| lid in s.orphans && lid in s.peerOf && s.peerOf[lid] == p;
        assert n.peerOf[lid] == p;
      }
    }
  }

  lemma AskKeeps(cap: nat, s: State, t: Task, peer: Peer, now: int)
    requires Inv(s)
    ensures Inv(DoAsk(cap, s, t, peer, now))
  {
    if !Busy(s, t) {
      var n := DoAsk(cap, s, t, peer, now);
      AskedOk(s, peer);
      KeptOk(s, Asked(s, peer), s.times, cap, now);
      AskTimes(cap, s, t, peer, now);
      forall lid | lid in n.holder
        ensures Placed(n.table.vals, n.peerOf, n.orphans, lid)
      {
        AskUses(cap, s, t, peer, now, lid);
      }
      forall u | u in n.waiting
        ensures Placed(n.table.vals, n.peerOf, n.orphans, n.waiting[u])
      {
        AskUses(cap, s, t, peer, now, n.waiting[u]);
      }
    }
  }

  lemma RememberTimes(cap: nat, s: State, lid: LockId, now: int)
    requires Inv(s) && lid in s.holder && lid in s.peerOf
    ensures Synced(s, lid, now).Ok() && TimesOk(DoRemember(cap, s, lid, now))
  {
    var n, times := DoRemember(cap, s, lid, now), Synced(s, lid, now);
    s.times.PutLastOk(s.peerOf[lid], now);
    KeptOk(s, s.table, times, cap, now);
    forall p | p in n.times.vals
      ensures p in n.table.vals || HasOrphan(n.peerOf, n.orphans, p)
    {
      if p !in s.table.vals {
        assert p == s.peerOf[lid] ==> lid in s.orphans;
        assert HasOrphan(s.peerOf, s.orphans, p);
      }
    }
  }

  lemma RememberKeeps(cap: nat, s: State, lid: LockId, now: int)
    requires Inv(s)
    ensures Inv(DoRemember(cap, s, lid, now))
  {
    if lid in s.holder && lid in s.peerOf {
      var n := DoRemember(cap, s, lid, now);
      RememberTimes(cap, s, lid, now);
      KeptOk(s, s.table, Synced(s, lid, now), cap, now);
      forall l | l in s.holder || Wanted(s.waiting, l)
        ensures Placed(n.table.vals, n.peerOf, n.orphans, l)
      {
        PlacedAfter(s.table.vals, n.table.vals, s.holder, s.waiting, {}, s.peerOf, s.orphans, l);
      }
    }
  }

  lemma DoKeeps(cap: nat, s: State, a: Step)
    requires Inv(s)
    ensures Inv(Do(cap, s, a))
  {
    match a
    case Ask(t, peer, now) => AskKeeps(cap, s, t, peer, now);
    case Remember(lid, now) => RememberKeeps(cap, s, lid, now);
    case Wake(t) =>
    case Cancel(t) =>
    case Leave(lid) =>
  }

  lemma {:induction false} RunKeeps(cap: nat, s: State, steps: seq<Step>)
    requires Inv(s)
    ensures Inv(Run(cap, s, steps))
    decreases |steps|
  {
    if steps != [] {
      DoKeeps(cap, s, steps[0]);
      RunKeeps(cap, Do(cap, s, steps[0]), steps[1..]);
    }
  }

  /** Two coroutines are never inside for the same peer. */
  ghost predicate Exclusive(s: State) {
    forall a, b | a in s.holder && b in s.holder && a in s.peerOf && b in s.peerOf && s.peerOf[a] == s.peerOf[b] ::
      a == b
  }

  lemma NoOrphansExclusive(s: State)
    requires Inv(s) && s.orphans == {}
    ensures Exclusive(s)
  {
  }

  // --- when a lock is orphaned ---------------------------------------------------------------------------

  /** One run of the eviction loops: over which table and sync times, and whose lock was just asked for. */
  datatype Sweep = Sweep(table: ODict<Peer, LockId>, times: ODict<Peer, int>, asked: set<Peer>)

  ghost function SweepOf(s: State, a: Step): Option<Sweep> {
    match a
    case Ask(t, peer, now) => if Busy(s, t) then None else Some(Sweep(Asked(s, peer), s.times, {peer}))
    case Remember(lid, now) =>
      if lid !in s.holder || lid !in s.peerOf then None else Some(Sweep(s.table, Synced(s, lid, now), {}))
    case _ => None
  }

  ghost predicate AboutToBeTaken(s: State, w: Sweep, p: Peer) {
    p in w.table.vals && (p in w.asked || Wanted(s.waiting, w.table.vals[p]))
  }

  lemma SweepOk(s: State, a: Step)
    requires Inv(s) && SweepOf(s, a).Some?
    ensures var w := SweepOf(s, a).value;
            w.table.Ok() && w.times.Ok() && (s.orphans == {} ==> w.times.vals.Keys <= w.table.vals.Keys)
  {
    match a
    case Ask(t, peer, now) =>
      AskedOk(s, peer);
      SyncedPeersHaveLocks(s);
    case Remember(lid, now) =>
      s.times.PutLastOk(s.peerOf[lid], now);
      SyncedPeersHaveLocks(s);
      assert s.orphans == {} ==> s.peerOf[lid] in s.table.vals;
  }

  lemma SyncedPeersHaveLocks(s: State)
    requires TimesOk(s)
    ensures s.orphans == {} ==> s.times.vals.Keys <= s.table.vals.Keys
  {
    forall p | p in s.times.vals && s.orphans == {}
      ensures p in s.table.vals
    {
      assert !HasOrphan(s.peerOf, s.orphans, p);
    }
  }

  lemma KeptExactly(s: State, w: Sweep, cap: nat, now: int, p: Peer)
    requires w.table.Ok() && w.times.Ok()
    ensures p in Kept(s, w.table, w.times, cap, now).vals
            <==> p in w.table.vals && !Goes(Flags(w.table, s.holder), w.times, cap, p)
  {
    ForgetLeaves(Flags(w.table, s.holder), w.times, cap, now, p);
  }

  lemma OrphansAre(cap: nat, s: State, a: Step, lid: LockId)
    requires Inv(s) && lid !in s.orphans
    ensures lid in Do(cap, s, a).orphans <==>
              SweepOf(s, a).Some? &&
              var w := SweepOf(s, a).value;
              exists p | p in w.table.vals ::
                w.table.vals[p] == lid && AboutToBeTaken(s, w, p) && p !in Kept(s, w.table, w.times, cap, a.now).vals
  {
  }

  /** The exact moments at which a lock is orphaned: the loops run, by an asking or by the recording of a
      sync time; the lock is the one asked for, or has a woken waiter; and it goes, by its place among the
      idle locks and among the sync times. */
  lemma OrphanedExactlyWhen(cap: nat, s: State, a: Step, lid: LockId)
    requires Inv(s) && lid !in s.orphans
    ensures lid in Do(cap, s, a).orphans <==>
              SweepOf(s, a).Some? &&
              var w := SweepOf(s, a).value;
              exists p | p in w.table.vals ::
                w.table.vals[p] == lid && AboutToBeTaken(s, w, p) && Goes(Flags(w.table, s.holder), w.times, cap, p)
  {
    OrphansAre(cap, s, a, lid);
    if SweepOf(s, a).Some? {
      var w := SweepOf(s, a).value;
      SweepOk(s, a);
      forall p
        ensures p in Kept(s, w.table, w.times, cap, a.now).vals
                <==> p in w.table.vals && !Goes(Flags(w.table, s.holder), w.times, cap, p)
      {
        KeptExactly(s, w, cap, a.now, p);
      }
    }
  }

  /** Among the oldest idle locks, as many as the table is too long. */
  ghost predicate Doomed(table: ODict<Peer, LockId>, holder: map<LockId, Task>, cap: nat, p: Peer) {
    var held := Held(Flags(table, holder));
    p in IdleKeys(table.keys, held)[..Going(table.keys, held, cap)]
  }

  /** Before any lock was orphaned, the sync times take no lock: the table's own size and order decide. */
  lemma FirstLoopDecides(s: State, w: Sweep, cap: nat, now: int, p: Peer)
    requires w.table.Ok() && w.times.Ok() && w.times.vals.Keys <= w.table.vals.Keys && p in w.table.vals
    ensures p in Kept(s, w.table, w.times, cap, now).vals <==> !Doomed(w.table, s.holder, cap, p)
  {
    var d := Flags(w.table, s.holder);
    ForgetIsSpin(d, w.times, cap, now);
    SpunOk(d, cap);
    SpinLeaves(d.keys, Held(d), cap, p);
    assert p in Spun(d, cap).vals <==> p in Spun(d, cap).keys;
  }

  /** So mutual exclusion first fails exactly here: the table is longer than its cap, and a lock that is
      asked for or awaited is free and among the oldest idle ones that must go. */
  lemma FirstOrphanExactlyWhen(cap: nat, s: State, a: Step, lid: LockId)
    requires Inv(s) && s.orphans == {}
    ensures lid in Do(cap, s, a).orphans <==>
              SweepOf(s, a).Some? &&
              var w := SweepOf(s, a).value;
              exists p | p in w.table.vals ::
                w.table.vals[p] == lid && AboutToBeTaken(s, w, p) && Doomed(w.table, s.holder, cap, p)
  {
    OrphansAre(cap, s, a, lid);
    if SweepOf(s, a).Some? {
      var w := SweepOf(s, a).value;
      SweepOk(s, a);
      forall p | p in w.table.vals
        ensures p in Kept(s, w.table, w.times, cap, a.now).vals <==> !Doomed(w.table, s.holder, cap, p)
      {
        FirstLoopDecides(s, w, cap, a.now, p);
      }
    }
  }

  // --- exclusion ---------------------------------------------------------------------------------------------

  /** Over any run: two coroutines are inside for the same peer only if one of them holds an orphan. */
  lemma ExclusiveButForOrphans(cap: nat, steps: seq<Step>, a: LockId, b: LockId)
    ensures var s := Run(cap, START, steps);
            && (forall lid | lid in s.holder :: lid in s.peerOf)
            && (a in s.holder && b in s.holder && s.peerOf[a] == s.peerOf[b] && a !in s.orphans && b !in s.orphans
                ==> a == b)
  {
    RunKeeps(cap, START, steps);
  }

  ghost predicate Within(table: ODict<Peer, LockId>, peers: set<Peer>) {
    forall p | p in table.vals :: p in peers
  }

  ghost predicate AsksWithin(steps: seq<Step>, peers: set<Peer>) {
    forall i | 0 <= i < |steps| && steps[i].Ask? :: steps[i].peer in peers
  }

  /** A table of few peers is never cut. */
  lemma NothingDoomed(table: ODict<Peer, LockId>, holder: map<LockId, Task>, cap: nat, peers: set<Peer>, p: Peer)
    requires table.Ok() && Within(table, peers) && |peers| <= cap
    ensures !Doomed(table, holder, cap, p)
  {
    DistinctFits(table.keys, peers);
  }

  lemma StepWithin(cap: nat, s: State, a: Step, peers: set<Peer>)
    requires Inv(s) && s.orphans == {} && Within(s.table, peers) && |peers| <= cap && (a.Ask? ==> a.peer in peers)
    ensures Do(cap, s, a).orphans == {} && Within(Do(cap, s, a).table, peers)
  {
    var n := Do(cap, s, a);
    if SweepOf(s, a).Some? {
      var w := SweepOf(s, a).value;
      SweepOk(s, a);
      KeptOk(s, w.table, w.times, cap, a.now);
      forall lid
        ensures lid !in n.orphans
      {
        FirstOrphanExactlyWhen(cap, s, a, lid);
        forall p
          ensures !Doomed(w.table, s.holder, cap, p)
        {
          NothingDoomed(w.table, s.holder, cap, peers, p);
        }
      }
      assert n.orphans == {};
    }
  }

  lemma {:induction false} RunWithin(cap: nat, s: State, steps: seq<Step>, peers: set<Peer>)
    requires Inv(s) && s.orphans == {} && Within(s.table, peers) && |peers| <= cap && AsksWithin(steps, peers)
    ensures Inv(Run(cap, s, steps)) && Run(cap, s, steps).orphans == {}
    decreases |steps|
  {
    if steps != [] {
      StepWithin(cap, s, steps[0], peers);
      DoKeeps(cap, s, steps[0]);
      RunWithin(cap, Do(cap, s, steps[0]), steps[1..], peers);
    }
  }

  /** As long as no more peers than the cap are ever asked for, nobody is orphaned, and at most one
      coroutine is inside for each peer: over any run, sync times included. */
  lemma ExclusiveWithinTheCap(cap: nat, steps: seq<Step>, peers: set<Peer>)
    requires AsksWithin(steps, peers) && |peers| <= cap
    ensures Run(cap, START, steps).orphans == {} && Exclusive(Run(cap, START, steps))
  {
    RunWithin(cap, START, steps, peers);
    NoOrphansExclusive(Run(cap, START, steps));
  }

  // --- and what happens beyond it --------------------------------------------------------------------------

  /** A full table whose oldest lock is free and awaited: its waiter was woken and has not run. */
  ghost predicate OnTheEdge(cap: nat, s: State, p: Peer, w: Task) {
    && Inv(s) && s.orphans == {} && |s.table.keys| == cap && cap > 0
    && s.table.keys[0] == p && p in s.table.vals && s.table.vals[p] !in s.holder
    && w in s.waiting && s.waiting[w] == s.table.vals[p]
  }

  lemma OldestGoes(table: ODict<Peer, LockId>, holder: map<LockId, Task>, cap: nat)
    requires table.Ok() && |table.keys| == cap + 1
    requires table.keys[0] in table.vals && table.vals[table.keys[0]] !in holder
    ensures Doomed(table, holder, cap, table.keys[0])
  {
    var held := Held(Flags(table, holder));
    assert table.keys[0] !in held;
    assert IdleKeys(table.keys, held)[0] == table.keys[0];
  }

  /** A peer without a lock in the table is asked for: its lock is new and taken at once. */
  lemma FreshIsTaken(cap: nat, s: State, t: Task, q: Peer, now: int)
    requires Inv(s) && q !in s.table.vals && !Busy(s, t)
    ensures var n := DoAsk(cap, s, t, q, now);
            && n.holder == s.holder[s.next := t] && n.waiting == s.waiting
            && n.peerOf == s.peerOf[s.next := q] && n.next == s.next + 1
    ensures s.next !in s.holder && s.next !in s.peerOf
  {
    assert forall u | u in s.waiting :: s.waiting[u] in s.peerOf;
    assert !Wanted(s.waiting, s.next);
  }

  /** One more peer is asked for, and the awaited lock is forgotten. */
  lemma NewcomerForgets(cap: nat, s: State, p: Peer, w: Task, t: Task, q: Peer, now: int)
    requires OnTheEdge(cap, s, p, w) && q !in s.table.vals && !Busy(s, t)
    ensures p !in DoAsk(cap, s, t, q, now).table.vals
  {
    var put := Asked(s, q);
    AskedOk(s, q);
    WithoutAbsent(s.table.keys, q);
    assert put.keys == s.table.keys + [q];
    OldestGoes(put, s.holder, cap);
    SweepOk(s, Ask(t, q, now));
    FirstLoopDecides(s, Sweep(put, s.times, {q}), cap, now, p);
  }

  /** After the newcomer the awaited peer has no lock in the table, and its waiter still waits. */
  ghost predicate JustForgotten(s: State, one: State, p: Peer, w: Task, u: Task) {
    && Inv(one) && p !in one.table.vals && !Busy(one, u) && one.next == s.next + 1 && one.waiting == s.waiting
    && w in one.waiting && w != u
    && one.waiting[w] < s.next && one.waiting[w] !in one.holder
    && one.waiting[w] in one.peerOf && one.peerOf[one.waiting[w]] == p
  }

  lemma NewcomerComes(cap: nat, s: State, p: Peer, w: Task, t: Task, q: Peer, u: Task, now: int)
    requires OnTheEdge(cap, s, p, w) && q !in s.table.vals && !Busy(s, t) && !Busy(s, u) && t != u
    ensures JustForgotten(s, DoAsk(cap, s, t, q, now), p, w, u)
  {
    var one := DoAsk(cap, s, t, q, now);
    NewcomerForgets(cap, s, p, w, t, q, now);
    FreshIsTaken(cap, s, t, q, now);
    AskKeeps(cap, s, t, q, now);
    forall lid | lid in one.holder
      ensures one.holder[lid] != u
    {
      assert lid != s.next ==> s.holder[lid] != u;
    }
    assert s.waiting[w] in s.peerOf;
  }

  lemma ReturnerGoesIn(cap: nat, s: State, one: State, p: Peer, w: Task, u: Task, now: int)
    requires JustForgotten(s, one, p, w, u)
    ensures var n := Do(cap, DoAsk(cap, one, u, p, now), Wake(w));
            && n.holder == one.holder[one.next := u][one.waiting[w] := w]
            && n.peerOf == one.peerOf[one.next := p]
  {
    FreshIsTaken(cap, one, u, p, now);
  }

  /** Then a coroutine that asks for the forgotten peer gets a lock of its own, and goes in together with
      the waiter. From the edge this is three steps. */
  lemma BothGoIn(cap: nat, s: State, p: Peer, w: Task, t: Task, q: Peer, u: Task, now: int)
    requires OnTheEdge(cap, s, p, w) && q !in s.table.vals && !Busy(s, t) && !Busy(s, u) && t != u
    ensures var n := Do(cap, Do(cap, Do(cap, s, Ask(t, q, now)), Ask(u, p, now)), Wake(w));
            && !Exclusive(n)
            && s.waiting[w] in n.holder && n.holder[s.waiting[w]] == w
            && s.next + 1 in n.holder && n.holder[s.next + 1] == u
  {
    var one := DoAsk(cap, s, t, q, now);
    NewcomerComes(cap, s, p, w, t, q, u, now);
    ReturnerGoesIn(cap, s, one, p, w, u, now);
    FreshIsTaken(cap, s, t, q, now);
    var n := Do(cap, DoAsk(cap, one, u, p, now), Wake(w));
    var a, b := s.waiting[w], s.next + 1;
    assert a in n.holder && b in n.holder && n.peerOf[a] == p && n.peerOf[b] == p && a != b;
  }

  // --- and the edge is reached at every cap ----------------------------------------------------------------

  /** Some run of `n` steps puts two coroutines inside for one peer. */
  ghost predicate LeadsInside(cap: nat, s: State, n: nat) {
    exists steps :: |steps| == n && !Exclusive(Run(cap, s, steps))
  }

  lemma StepBack(cap: nat, s: State, a: Step, next: State, n: nat)
    requires next == Do(cap, s, a) && LeadsInside(cap, next, n)
    ensures LeadsInside(cap, s, n + 1)
  {
    var rest :| |rest| == n && !Exclusive(Run(cap, next, rest));
    var steps := [a] + rest;
    assert steps[0] == a && steps[1..] == rest;
    assert Run(cap, s, steps) == Run(cap, next, rest);
  }

  lemma NoStepsLeft(cap: nat, s: State)
    requires !Exclusive(s)
    ensures LeadsInside(cap, s, 0)
  {
    var none: seq<Step> := [];
    assert Run(cap, s, none) == s;
  }

  lemma EdgeLeadsInside(cap: nat, s: State, p: Peer, w: Task, t: Task, q: Peer, u: Task, now: int)
    requires OnTheEdge(cap, s, p, w) && q !in s.table.vals && !Busy(s, t) && !Busy(s, u) && t != u
    ensures LeadsInside(cap, s, 3)
  {
    BothGoIn(cap, s, p, w, t, q, u, now);
    var one := Do(cap, s, Ask(t, q, now));
    var two := Do(cap, one, Ask(u, p, now));
    var three := Do(cap, two, Wake(w));
    NoStepsLeft(cap, three);
    StepBack(cap, two, Wake(w), three, 0);
    StepBack(cap, one, Ask(u, p, now), two, 1);
    StepBack(cap, s, Ask(t, q, now), one, 2);
  }

  /** A table that fits is left as it is. */
  lemma Uncut(s: State, w: Sweep, cap: nat, now: int)
    requires w.table.Ok() && w.times.Ok() && w.times.vals.Keys <= w.table.vals.Keys && |w.table.keys| <= cap
    ensures Kept(s, w.table, w.times, cap, now) == w.table
  {
    var d := Flags(w.table, s.holder);
    ForgetIsSpin(d, w.times, cap, now);
    forall p
      ensures p in Spun(d, cap).vals <==> p in w.table.vals
    {
    }
  }

  lemma AskUncut(cap: nat, s: State, t: Task, peer: Peer, now: int)
    requires Inv(s) && s.orphans == {} && !Busy(s, t) && |Asked(s, peer).keys| <= cap
    ensures var n := DoAsk(cap, s, t, peer, now); Inv(n) && n.table == Asked(s, peer) && n.orphans == {}
  {
    SweepOk(s, Ask(t, peer, now));
    Uncut(s, Sweep(Asked(s, peer), s.times, {peer}), cap, now);
    AskKeeps(cap, s, t, peer, now);
  }

  /** Coroutine 2 waits for the free lock of peer 7, the oldest of `k + 1`. */
  ghost predicate Filled(s: State, k: nat) {
    && Inv(s) && s.orphans == {} && s.waiting == map[2 := 0]
    && FilledTable(s.table, k) && FilledHolders(s.holder, k)
  }

  ghost predicate FilledTable(table: ODict<Peer, LockId>, k: nat) {
    && |table.keys| == k + 1 && table.keys[0] == 7 && 7 in table.vals && table.vals[7] == 0
    && forall p | p in table.vals :: p == 7 || 100 < p <= 100 + k
  }

  ghost predicate FilledHolders(holder: map<LockId, Task>, k: nat) {
    0 !in holder && forall lid | lid in holder :: 10 < holder[lid] <= 10 + k
  }

  lemma TableGrows(table: ODict<Peer, LockId>, k: nat, lid: LockId)
    requires table.Ok() && FilledTable(table, k)
    ensures 101 + k !in table.vals && FilledTable(table.PutLast(101 + k, lid), k + 1)
  {
    var entrant := 101 + k;
    assert entrant !in table.vals && entrant !in table.keys;
    WithoutAbsent(table.keys, entrant);
    assert table.PutLast(entrant, lid).keys == table.keys + [entrant];
  }

  lemma HoldersGrow(holder: map<LockId, Task>, k: nat, lid: LockId)
    requires FilledHolders(holder, k) && lid != 0
    ensures FilledHolders(holder[lid := 11 + k], k + 1)
  {
  }

  lemma FillOne(cap: nat, s: State, k: nat)
    requires Filled(s, k) && k + 1 < cap
    ensures Filled(DoAsk(cap, s, 11 + k, 101 + k, 0), k + 1)
  {
    TableGrows(s.table, k, s.next);
    assert s.waiting[2] in s.peerOf;
    HoldersGrow(s.holder, k, s.next);
    AskUncut(cap, s, 11 + k, 101 + k, 0);
    FreshIsTaken(cap, s, 11 + k, 101 + k, 0);
  }

  lemma FirstAsk(cap: nat)
    requires cap > 0
    ensures var one := DoAsk(cap, START, 1, 7, 0);
            && Inv(one) && one.table == ODict([7], map[7 := 0]) && one.orphans == {}
            && one.holder == map[0 := 1] && one.waiting == map[]
  {
    WithoutAbsent(START.table.keys, 7);
    assert Asked(START, 7) == ODict([7], map[7 := 0]);
    AskUncut(cap, START, 1, 7, 0);
    FreshIsTaken(cap, START, 1, 7, 0);
  }

  lemma SecondAsk(cap: nat, one: State)
    requires Inv(one) && one.table == ODict([7], map[7 := 0]) && one.orphans == {} && cap > 0
    requires one.holder == map[0 := 1] && one.waiting == map[]
    ensures var two := DoAsk(cap, one, 2, 7, 0);
            && Inv(two) && two.table == one.table && two.orphans == {}
            && two.holder == one.holder && two.waiting == map[2 := 0]
  {
    WithoutOldest([7]);
    assert Asked(one, 7).keys == [7];
    assert Asked(one, 7) == one.table;
    AskUncut(cap, one, 2, 7, 0);
  }

  lemma FirstLeave(two: State)
    requires Inv(two) && two.table == ODict([7], map[7 := 0]) && two.orphans == {}
    requires two.holder == map[0 := 1] && two.waiting == map[2 := 0]
    ensures Filled(DoLeave(two, 0), 0)
  {
  }

  lemma FillOneBack(cap: nat, s: State, k: nat) returns (next: State)
    requires Filled(s, k) && k + 1 < cap
    ensures Filled(next, k + 1) && forall n: nat | LeadsInside(cap, next, n) :: LeadsInside(cap, s, n + 1)
  {
    next := DoAsk(cap, s, 11 + k, 101 + k, 0);
    FillOne(cap, s, k);
    forall n: nat | LeadsInside(cap, next, n)
      ensures LeadsInside(cap, s, n + 1)
    {
      StepBack(cap, s, Ask(11 + k, 101 + k, 0), next, n);
    }
  }

  lemma {:induction false} FilledLeadsInside(cap: nat, s: State, k: nat)
    requires Filled(s, k) && k < cap
    ensures LeadsInside(cap, s, cap - k + 2)
    decreases cap - k
  {
    if k + 1 == cap {
      EdgeLeadsInside(cap, s, 7, 2, 11 + k, 101 + k, 3, 0);
    } else {
      var next := FillOneBack(cap, s, k);
      FilledLeadsInside(cap, next, k + 1);
    }
  }

  lemma Opening(cap: nat, start: State) returns (next: State)
    requires start == START && cap > 0
    ensures Filled(next, 0) && forall n: nat | LeadsInside(cap, next, n) :: LeadsInside(cap, start, n + 3)
  {
    var one := DoAsk(cap, start, 1, 7, 0);
    var two := DoAsk(cap, one, 2, 7, 0);
    next := DoLeave(two, 0);
    FirstAsk(cap);
    SecondAsk(cap, one);
    FirstLeave(two);
    forall n: nat | LeadsInside(cap, next, n)
      ensures LeadsInside(cap, start, n + 3)
    {
      StepBack(cap, two, Leave(0), next, n);
      StepBack(cap, one, Ask(2, 7, 0), two, n + 1);
      StepBack(cap, start, Ask(1, 7, 0), one, n + 2);
    }
  }

  /** For a table of any size a run from the start on puts two coroutines inside for one peer: the code's
      own cap is 1000. */
  lemma TwoInside(cap: nat)
    requires cap > 0
    ensures LeadsInside(cap, START, cap + 5)
  {
    var next := Opening(cap, START);
    FilledLeadsInside(cap, next, 0);
  }
}
