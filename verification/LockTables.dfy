/** Which locks the bounded lock tables forget: the store's per-dialog locks with their last sync times
    (core/message_store.py) and the language locks of agent/outbound.py. A table maps a dialog to whether
    its lock is held. */
module LockTables {
  import opened OrderedDicts

  type Locks = ODict<int, bool>

  ghost function Held(d: Locks): set<int> {
    set k | k in d.vals && d.vals[k]
  }

  /** The keys whose lock nobody holds, oldest first. */
  function IdleKeys(keys: seq<int>, held: set<int>): seq<int> {
    KeysOutside(keys, held)
  }

  /** The loop: an idle oldest lock goes, a held one moves to the end; it stops when the table fits or
      nothing idle is left. */
  function Spin(keys: seq<int>, held: set<int>, cap: nat): seq<int>
    decreases |keys|, FirstIdle(keys, held)
  {
    if |keys| <= cap || FirstIdle(keys, held) == |keys| then keys
    else if keys[0] in held then
      FirstIdleRotate(keys, held);
      Spin(keys[1..] + [keys[0]], held, cap)
    else Spin(keys[1..], held, cap)
  }

  /** How many held keys stand before the oldest idle one. */
  function FirstIdle(keys: seq<int>, held: set<int>): (n: nat)
    ensures n <= |keys| && (forall i | 0 <= i < n :: keys[i] in held) && (n < |keys| ==> keys[n] !in held)
  {
    if keys == [] || keys[0] !in held then 0 else 1 + FirstIdle(keys[1..], held)
  }

  lemma FirstIdleRotate(keys: seq<int>, held: set<int>)
    requires keys != [] && keys[0] in held && FirstIdle(keys, held) < |keys|
    ensures FirstIdle(keys[1..] + [keys[0]], held) == FirstIdle(keys, held) - 1
  {
    var n := FirstIdle(keys, held);
    var turned := keys[1..] + [keys[0]];
    FirstIdleIs(turned, held, n - 1);
  }

  lemma {:induction false} FirstIdleIs(keys: seq<int>, held: set<int>, n: nat)
    requires n < |keys| && (forall i | 0 <= i < n :: keys[i] in held) && keys[n] !in held
    ensures FirstIdle(keys, held) == n
  {
    if n > 0 {
      FirstIdleIs(keys[1..], held, n - 1);
    }
  }

  /** Turning past held keys does not change where the loop ends. */
  lemma {:induction false} SpinTurns(keys: seq<int>, held: set<int>, cap: nat, n: nat)
    requires n <= FirstIdle(keys, held) < |keys| && |keys| > cap
    ensures Spin(keys, held, cap) == Spin(keys[n..] + keys[..n], held, cap)
    decreases n
  {
    if n == 0 {
      assert keys[0..] + keys[..0] == keys;
    } else {
      var turned := keys[1..] + [keys[0]];
      FirstIdleRotate(keys, held);
      SpinTurns(turned, held, cap, n - 1);
      assert turned[n - 1..] + turned[..n - 1] == keys[n..] + keys[..n];
    }
  }

  // --- what the loop does -----------------------------------------------------------------------------

  function Excess(keys: seq<int>, cap: nat): nat {
    if |keys| <= cap then 0 else |keys| - cap
  }

  /** How many locks go: as many as needed, and no more than there are idle ones. */
  function Going(keys: seq<int>, held: set<int>, cap: nat): nat {
    var idle := |IdleKeys(keys, held)|;
    if Excess(keys, cap) <= idle then Excess(keys, cap) else idle
  }

  lemma {:induction false} NoIdle(keys: seq<int>, held: set<int>)
    ensures IdleKeys(keys, held) == [] <==> FirstIdle(keys, held) == |keys|
  {
    if keys != [] {
      NoIdle(keys[1..], held);
    }
  }

  lemma IdleFirst(keys: seq<int>, held: set<int>)
    requires keys != []
    ensures keys[0] in held ==> IdleKeys(keys[1..] + [keys[0]], held) == IdleKeys(keys, held)
    ensures keys[0] !in held ==> IdleKeys(keys, held) == [keys[0]] + IdleKeys(keys[1..], held)
  {
    var rest: seq<int> := [];
    KeysOutsideAppend(keys[1..], [keys[0]], held);
    assert [keys[0]][1..] == rest && IdleKeys(rest, held) == rest;
    assert keys[0] in held ==> IdleKeys([keys[0]], held) == rest + rest;
    var others := IdleKeys(keys[1..], held);
    assert rest + others == others + rest == others;
  }

  /** The locks that leave are the oldest idle ones, and the idle ones that stay keep their order. */
  lemma {:induction false} SpinTakesOldestIdle(keys: seq<int>, held: set<int>, cap: nat)
    ensures var left, m := Spin(keys, held, cap), Going(keys, held, cap);
            |left| == |keys| - m && IdleKeys(left, held) == IdleKeys(keys, held)[m..]
    decreases |keys|, FirstIdle(keys, held)
  {
    NoIdle(keys, held);
    if |keys| > cap && FirstIdle(keys, held) < |keys| {
      IdleFirst(keys, held);
      if keys[0] in held {
        FirstIdleRotate(keys, held);
        SpinTakesOldestIdle(keys[1..] + [keys[0]], held, cap);
      } else {
        SpinTakesOldestIdle(keys[1..], held, cap);
      }
    }
  }

  lemma {:induction false} SpinKeepsHeld(keys: seq<int>, held: set<int>, cap: nat)
    ensures forall k | k in keys && k in held :: k in Spin(keys, held, cap)
    ensures forall k | k in Spin(keys, held, cap) :: k in keys
    decreases |keys|, FirstIdle(keys, held)
  {
    if |keys| > cap && FirstIdle(keys, held) < |keys| {
      assert keys == [keys[0]] + keys[1..];
      if keys[0] in held {
        FirstIdleRotate(keys, held);
        SpinKeepsHeld(keys[1..] + [keys[0]], held, cap);
      } else {
        SpinKeepsHeld(keys[1..], held, cap);
      }
    }
  }

  /** The locks that leave are exactly the oldest idle ones, as many as the table is too long or as
      there are; the idle ones that stay keep their order, and every held lock stays. */
  lemma SpinForgetsTheOldestIdle(keys: seq<int>, held: set<int>, cap: nat)
    ensures var left := Spin(keys, held, cap);
            && IdleKeys(left, held) == IdleKeys(keys, held)[Going(keys, held, cap)..]
            && |left| == |keys| - Going(keys, held, cap)
            && (forall k | k in keys && k in held :: k in left)
            && (forall k | k in left :: k in keys)
  {
    SpinTakesOldestIdle(keys, held, cap);
    SpinKeepsHeld(keys, held, cap);
  }

  /** The table fits afterwards, or only held locks are left in it. */
  lemma FitsOrAllHeld(keys: seq<int>, held: set<int>, cap: nat)
    ensures var left := Spin(keys, held, cap);
            |left| <= cap || forall k | k in left :: k in held
  {
    SpinForgetsTheOldestIdle(keys, held, cap);
    var left := Spin(keys, held, cap);
    if |left| > cap {
      NoIdle(left, held);
    }
  }

  lemma NewestIdle(keys: seq<int>, held: set<int>)
    requires keys != [] && keys[|keys| - 1] !in held
    ensures var idle := IdleKeys(keys, held); idle != [] && idle[|idle| - 1] == keys[|keys| - 1]
  {
    var x := keys[|keys| - 1];
    KeysOutsideAppend(keys[..|keys| - 1], [x], held);
    assert keys == keys[..|keys| - 1] + [x];
    var rest: seq<int> := [];
    assert [x][1..] == rest && IdleKeys(rest, held) == rest && [x] + rest == [x];
    assert IdleKeys([x], held) == [x] + IdleKeys(rest, held);
  }

  /** The lock `_peer_lock` has just moved to the end, and is about to return, is forgotten exactly when
      nobody holds it, the table was too long, and at least `cap` other locks are held. */
  lemma ReturnedLockStays(keys: seq<int>, held: set<int>, cap: nat)
    requires keys != [] && keys[|keys| - 1] !in held
    ensures keys[|keys| - 1] in Spin(keys, held, cap)
            <==> |keys| <= cap || |keys| - |IdleKeys(keys, held)| < cap
  {
    var x, left := keys[|keys| - 1], Spin(keys, held, cap);
    var idle, m := IdleKeys(keys, held), Going(keys, held, cap);
    NewestIdle(keys, held);
    SpinForgetsTheOldestIdle(keys, held, cap);
    KeysOutsideIn(left, held, x);
    var stay := idle[m..];
    assert stay != [] ==> stay[|stay| - 1] == x;
  }

  // --- the second loop ---------------------------------------------------------------------------------

  /** `while len(last_sync) > cap`: the oldest sync time goes, and with it the dialog's lock; a held
      lock stops the loop and gets a new time. */
  function Drain(last: ODict<int, int>, locks: Locks, cap: nat, now: int): (ODict<int, int>, Locks)
    decreases |last.keys|
  {
    if |last.keys| <= cap then (last, locks)
    else
      var peer, rest := last.keys[0], last.DropOldest();
      if peer !in locks.vals then Drain(rest, locks, cap, now)
      else if locks.vals[peer] then (rest.PutLast(peer, now), locks)
      else Drain(rest, locks.Remove(peer), cap, now)
  }

  lemma {:induction false} DrainOk(last: ODict<int, int>, locks: Locks, cap: nat, now: int)
    requires last.Ok() && locks.Ok()
    ensures var (last', locks') := Drain(last, locks, cap, now);
            last'.Ok() && locks'.Ok() && |last'.keys| <= |last.keys| && |locks'.keys| <= |locks.keys|
    decreases |last.keys|
  {
    if |last.keys| > cap {
      var peer, rest := last.keys[0], last.DropOldest();
      last.DropOldestOk();
      rest.PutLastOk(peer, now);
      locks.RemoveOk(peer);
      if peer !in locks.vals {
        DrainOk(rest, locks, cap, now);
      } else if !locks.vals[peer] {
        DrainOk(rest, locks.Remove(peer), cap, now);
      }
    }
  }

  /** Locks that go were idle, and their dialogs lose their sync time with them; no other lock changes. */
  ghost predicate Freed(last: map<int, int>, locks: map<int, bool>, last': map<int, int>, locks': map<int, bool>) {
    && last'.Keys <= last.Keys
    && (forall k | k in locks' :: k in locks && locks'[k] == locks[k])
    && (forall k | k in locks && k !in locks' :: !locks[k] && k in last && k !in last')
  }

  lemma FreedOneMore(last: map<int, int>, locks: map<int, bool>, peer: int,
                     last': map<int, int>, locks': map<int, bool>)
    requires peer in last && (peer in locks ==> !locks[peer])
    requires Freed(last - {peer}, locks - {peer}, last', locks')
    ensures Freed(last, locks, last', locks')
  {
  }

  lemma {:induction false} DrainTakesIdleLocks(last: ODict<int, int>, locks: Locks, cap: nat, now: int)
    requires last.Ok() && locks.Ok()
    ensures var (last', locks') := Drain(last, locks, cap, now);
            Freed(last.vals, locks.vals, last'.vals, locks'.vals)
    decreases |last.keys|
  {
    if |last.keys| > cap {
      var peer, rest := last.keys[0], last.DropOldest();
      last.DropOldestOk();
      locks.RemoveOk(peer);
      var (last', locks') := Drain(last, locks, cap, now);
      if peer !in locks.vals {
        DrainTakesIdleLocks(rest, locks, cap, now);
        assert locks.vals - {peer} == locks.vals;
        FreedOneMore(last.vals, locks.vals, peer, last'.vals, locks'.vals);
      } else if !locks.vals[peer] {
        DrainTakesIdleLocks(rest, locks.Remove(peer), cap, now);
        FreedOneMore(last.vals, locks.vals, peer, last'.vals, locks'.vals);
      }
    }
  }

  /** The loop stopped at a held lock: its dialog is now the newest, with a new time. */
  ghost predicate StoppedAt(last: ODict<int, int>, locks: map<int, bool>, now: int) {
    && last.keys != []
    && var k := last.keys[|last.keys| - 1];
       k in locks && locks[k] && k in last.vals && last.vals[k] == now
  }

  lemma {:induction false} DrainFitsOrStops(last: ODict<int, int>, locks: Locks, cap: nat, now: int)
    ensures var (last', locks') := Drain(last, locks, cap, now);
            |last'.keys| <= cap || StoppedAt(last', locks'.vals, now)
    decreases |last.keys|
  {
    if |last.keys| > cap {
      var peer, rest := last.keys[0], last.DropOldest();
      if peer !in locks.vals {
        DrainFitsOrStops(rest, locks, cap, now);
      } else if !locks.vals[peer] {
        DrainFitsOrStops(rest, locks.Remove(peer), cap, now);
      } else {
        assert StoppedAt(rest.PutLast(peer, now), locks.vals, now);
      }
    }
  }

  // --- both loops -----------------------------------------------------------------------------------------

  /** The table after the first loop. */
  ghost function Spun(d: Locks, cap: nat): Locks {
    var left := Spin(d.keys, Held(d), cap);
    ODict(left, map k | k in d.vals && k in left :: d.vals[k])
  }

  lemma {:induction false} SpinDistinct(keys: seq<int>, held: set<int>, cap: nat)
    requires Distinct(keys)
    ensures Distinct(Spin(keys, held, cap))
    decreases |keys|, FirstIdle(keys, held)
  {
    if |keys| > cap && FirstIdle(keys, held) < |keys| {
      if keys[0] in held {
        FirstIdleRotate(keys, held);
        SpinDistinct(keys[1..] + [keys[0]], held, cap);
      } else {
        SpinDistinct(keys[1..], held, cap);
      }
    }
  }

  /** Which keys the first loop lets go, by order, size and who is held. */
  lemma SpinLeaves(keys: seq<int>, held: set<int>, cap: nat, k: int)
    requires Distinct(keys)
    ensures k in Spin(keys, held, cap) <==> k in keys && k !in IdleKeys(keys, held)[..Going(keys, held, cap)]
  {
    var left, idle, m := Spin(keys, held, cap), IdleKeys(keys, held), Going(keys, held, cap);
    SpinForgetsTheOldestIdle(keys, held, cap);
    KeysOutsideIn(left, held, k);
    KeysOutsideIn(keys, held, k);
    KeysOutsideOk(keys, held);
    assert idle == idle[..m] + idle[m..];
    OneSideOnly(idle, m, k);
  }

  lemma OneSideOnly(idle: seq<int>, m: nat, k: int)
    requires Distinct(idle) && m <= |idle|
    ensures k in idle ==> (k in idle[m..] <==> k !in idle[..m])
    ensures k in idle[m..] || k in idle[..m] ==> k in idle
  {
    assert idle == idle[..m] + idle[m..];
    assert forall i, j | 0 <= i < m && 0 <= j < |idle| - m :: idle[..m][i] != idle[m..][j];
  }

  lemma SpunOk(d: Locks, cap: nat)
    requires d.Ok()
    ensures Spun(d, cap).Ok() && SpunFrom(Spun(d, cap), d, cap) && Safe(Spun(d, cap), d, cap)
  {
    SpinDistinct(d.keys, Held(d), cap);
    SpinForgetsTheOldestIdle(d.keys, Held(d), cap);
    SpunIsSafe(Spun(d, cap), d, cap);
  }

  lemma SameFlags(a: map<int, bool>, b: map<int, bool>)
    requires a.Keys == b.Keys && forall k | k in a :: a[k] == b[k]
    ensures a == b
  {
    forall k | k in a
      ensures k in b && (a[k] <==> b[k])
    {
    }
    assert a.Items == b.Items;
  }

  lemma SpunFromIs(after: Locks, before: Locks, cap: nat)
    requires before.Ok() && SpunFrom(after, before, cap)
    ensures after == Spun(before, cap)
  {
    var spun := Spun(before, cap);
    forall k
      ensures k in after.vals <==> k in spun.vals
    {
      assert k in after.vals <==> k in after.keys;
    }
    assert after.vals.Keys == spun.vals.Keys;
    SameFlags(after.vals, spun.vals);
  }

  /** `_evict_idle_peer_state`: the locks and the sync times it leaves. */
  ghost function Forget(d: Locks, times: ODict<int, int>, cap: nat, now: int): (ODict<int, int>, Locks) {
    var spun := Spun(d, cap);
    Drain(times.Minus(d.vals.Keys - spun.vals.Keys), spun, cap, now)
  }

  lemma ForgetIsSafe(d: Locks, times: ODict<int, int>, cap: nat, now: int)
    requires d.Ok() && times.Ok()
    ensures var (times', after) := Forget(d, times, cap, now);
            Safe(after, d, cap) && times'.Ok() && |times'.keys| <= |times.keys|
  {
    var spun := Spun(d, cap);
    SpunOk(d, cap);
    times.MinusOk(d.vals.Keys - spun.vals.Keys);
    DrainIsSafe(d, times.Minus(d.vals.Keys - spun.vals.Keys), spun, cap, now);
  }

  /** A sync time that stays is what it was, or new for a held lock; one leaves only as its dialog has no
      lock, and none while the list fits. */
  ghost predicate TimesKept(last: map<int, int>, locks: map<int, bool>, fits: bool, now: int,
                            last': map<int, int>, locks': map<int, bool>) {
    && (forall k | k in last' && k in last ::
          last'[k] == last[k] || (!fits && k in locks && locks[k] && last'[k] == now))
    && (forall k | k in last && k !in last' :: !fits && k !in locks')
  }

  lemma {:induction false} DrainTimes(last: ODict<int, int>, locks: Locks, cap: nat, now: int)
    requires last.Ok() && locks.Ok()
    ensures var (last', locks') := Drain(last, locks, cap, now);
            TimesKept(last.vals, locks.vals, |last.keys| <= cap, now, last'.vals, locks'.vals)
    decreases |last.keys|
  {
    if |last.keys| > cap {
      var peer, rest := last.keys[0], last.DropOldest();
      last.DropOldestOk();
      locks.RemoveOk(peer);
      if peer !in locks.vals {
        DrainTimes(rest, locks, cap, now);
        DrainTakesIdleLocks(rest, locks, cap, now);
      } else if !locks.vals[peer] {
        DrainTimes(rest, locks.Remove(peer), cap, now);
        DrainTakesIdleLocks(rest, locks.Remove(peer), cap, now);
      }
    }
  }

  /** No sync time is kept for a lock that goes, and none is lost or changed otherwise. While the list fits,
      the times that stay are exactly those whose lock does, or that have none. */
  lemma ForgetTimes(d: Locks, times: ODict<int, int>, cap: nat, now: int)
    requires d.Ok() && times.Ok()
    ensures var (times', after) := Forget(d, times, cap, now);
            && (forall k | k in times'.vals :: k in times.vals && (k in d.vals ==> k in after.vals))
            && (forall k | k in times.vals && k !in times'.vals :: k !in after.vals)
            && (forall k | k in times'.vals ::
                  times'.vals[k] == times.vals[k] || (k in d.vals && d.vals[k] && times'.vals[k] == now))
            && (|times.keys| <= cap ==>
                  forall k | k in times.vals ::
                    if k in d.vals && k !in after.vals then k !in times'.vals
                    else k in times'.vals && times'.vals[k] == times.vals[k])
  {
    var spun := Spun(d, cap);
    SpunOk(d, cap);
    times.MinusOk(d.vals.Keys - spun.vals.Keys);
    DrainTakesIdleLocks(times.Minus(d.vals.Keys - spun.vals.Keys), spun, cap, now);
    DrainTimes(times.Minus(d.vals.Keys - spun.vals.Keys), spun, cap, now);
  }

  /** How many sync times the second loop takes: those too many, and none from the first held lock on. */
  function Cut(keys: seq<int>, locks: map<int, bool>, cap: nat): nat {
    var first := FirstHeld(keys, locks);
    if Excess(keys, cap) <= first then Excess(keys, cap) else first
  }

  function FirstHeld(keys: seq<int>, locks: map<int, bool>): (n: nat)
    ensures n <= |keys|
  {
    if keys == [] || (keys[0] in locks && locks[keys[0]]) then 0 else 1 + FirstHeld(keys[1..], locks)
  }

  lemma {:induction false} FirstHeldSame(keys: seq<int>, locks: map<int, bool>, k: int)
    requires k in locks ==> !locks[k]
    ensures FirstHeld(keys, locks - {k}) == FirstHeld(keys, locks)
  {
    if keys != [] {
      FirstHeldSame(keys[1..], locks, k);
    }
  }

  /** Which locks the second loop lets go. */
  lemma {:induction false} DrainLeaves(times: ODict<int, int>, locks: Locks, cap: nat, now: int, k: int)
    requires times.Ok() && locks.Ok()
    ensures k in Drain(times, locks, cap, now).1.vals
            <==> k in locks.vals && k !in times.keys[..Cut(times.keys, locks.vals, cap)]
    decreases |times.keys|
  {
    if |times.keys| > cap {
      var peer, rest := times.keys[0], times.DropOldest();
      times.DropOldestOk();
      locks.RemoveOk(peer);
      if peer !in locks.vals || !locks.vals[peer] {
        FirstHeldSame(rest.keys, locks.vals, peer);
        var left := if peer in locks.vals then locks.Remove(peer) else locks;
        DrainLeaves(rest, left, cap, now, k);
        CutFirst(times.keys, locks.vals, left.vals, cap, k);
      }
    }
  }

  lemma CutFirst(keys: seq<int>, locks: map<int, bool>, left: map<int, bool>, cap: nat, k: int)
    requires |keys| > cap && FirstHeld(keys[1..], left) == FirstHeld(keys[1..], locks)
    requires keys[0] in locks ==> !locks[keys[0]]
    ensures k in keys[..Cut(keys, locks, cap)] <==> k == keys[0] || k in keys[1..][..Cut(keys[1..], left, cap)]
  {
    var n := Cut(keys, locks, cap);
    assert n == 1 + Cut(keys[1..], left, cap);
    assert keys[..n] == [keys[0]] + keys[1..][..n - 1];
  }

  /** The exact condition, by order, size and who is held, under which a lock leaves the table. */
  ghost predicate Goes(d: Locks, times: ODict<int, int>, cap: nat, k: int) {
    var spun := Spun(d, cap);
    var kept := times.Minus(d.vals.Keys - spun.vals.Keys);
    || k in IdleKeys(d.keys, Held(d))[..Going(d.keys, Held(d), cap)]
    || k in kept.keys[..Cut(kept.keys, spun.vals, cap)]
  }

  lemma ForgetLeaves(d: Locks, times: ODict<int, int>, cap: nat, now: int, k: int)
    requires d.Ok() && times.Ok()
    ensures k in Forget(d, times, cap, now).1.vals <==> k in d.vals && !Goes(d, times, cap, k)
  {
    var spun := Spun(d, cap);
    var kept := times.Minus(d.vals.Keys - spun.vals.Keys);
    SpunOk(d, cap);
    SpinLeaves(d.keys, Held(d), cap, k);
    times.MinusOk(d.vals.Keys - spun.vals.Keys);
    DrainLeaves(kept, spun, cap, now, k);
    assert k in spun.vals <==> k in d.vals && k in spun.keys;
  }

  lemma {:induction false} DistinctFits(a: seq<int>, b: set<int>)
    requires Distinct(a) && forall k | k in a :: k in b
    ensures |a| <= |b|
  {
    if a != [] {
      assert a[0] in a && forall k | k in a[1..] :: k in a;
      assert forall k | k in a[1..] :: k != a[0];
      DistinctFits(a[1..], b - {a[0]});
    }
  }

  lemma {:induction false} KeysCounted(a: seq<int>)
    ensures |set k | k in a| <= |a|
  {
    if a != [] {
      KeysCounted(a[1..]);
      assert a == [a[0]] + a[1..];
      assert (set k | k in a) == {a[0]} + (set k | k in a[1..]);
    }
  }

  /** The second loop has nothing to do where every sync time belongs to a lock in a table that the first
      loop has cut: a list too long then means that every lock, the oldest too, is held. */
  lemma DrainIsIdle(times: ODict<int, int>, locks: Locks, cap: nat, now: int)
    requires times.Ok() && locks.Ok() && times.vals.Keys <= locks.vals.Keys
    requires |locks.keys| <= cap || forall k | k in locks.vals :: locks.vals[k]
    ensures Drain(times, locks, cap, now).1 == locks
  {
    if |times.keys| > cap {
      DistinctFits(times.keys, set k | k in locks.keys);
      KeysCounted(locks.keys);
      assert times.keys[0] in times.keys && times.keys[0] in times.vals;
    }
  }

  /** So it is where every sync time's dialog has its lock in the table. */
  lemma ForgetIsSpin(d: Locks, times: ODict<int, int>, cap: nat, now: int)
    requires d.Ok() && times.Ok() && times.vals.Keys <= d.vals.Keys
    ensures Forget(d, times, cap, now).1 == Spun(d, cap)
  {
    var spun := Spun(d, cap);
    SpunOk(d, cap);
    times.MinusOk(d.vals.Keys - spun.vals.Keys);
    DrainIsIdle(times.Minus(d.vals.Keys - spun.vals.Keys), spun, cap, now);
  }

  // --- the objects -----------------------------------------------------------------------------------------

  /** A table after the first loop: the keys it ends with, every value as before. */
  ghost predicate SpunFrom(after: Locks, before: Locks, cap: nat) {
    && after.Ok() && after.keys == Spin(before.keys, Held(before), cap)
    && forall k | k in after.vals :: k in before.vals && after.vals[k] == before.vals[k]
  }

  /** Where the loop stands: at `base` nothing had been checked; since then `checked` held keys turned. */
  ghost predicate Turning(d: Locks, base: seq<int>, checked: nat, before: Locks, cap: nat) {
    && d.Ok() && checked <= |base| && (checked > 0 ==> |base| > cap) && d.keys == base[checked..] + base[..checked]
    && (forall i | 0 <= i < checked :: base[i] in Held(before))
    && Spin(base, Held(before), cap) == Spin(before.keys, Held(before), cap)
    && forall k | k in d.vals :: k in before.vals && d.vals[k] == before.vals[k]
  }

  lemma NextChecked(d: Locks, base: seq<int>, checked: nat, before: Locks, cap: nat)
    requires Turning(d, base, checked, before, cap) && checked < |base|
    ensures d.keys[0] == base[checked] && d.keys[0] in d.vals
    ensures d.vals[d.keys[0]] <==> base[checked] in Held(before)
  {
    assert d.keys[0] in d.keys;
  }

  lemma TurnedSeq(keys: seq<int>, base: seq<int>, checked: nat)
    requires checked < |base| && keys == base[checked..] + base[..checked]
    ensures keys[1..] + [keys[0]] == base[checked + 1..] + base[..checked + 1]
  {
  }

  lemma TurnOnce(d: Locks, base: seq<int>, checked: nat, before: Locks, cap: nat)
    requires Turning(d, base, checked, before, cap) && checked < |base| && d.vals[d.keys[0]] && |base| > cap
    ensures Turning(d.Rotate(), base, checked + 1, before, cap) && d.Rotate() == d.PutLast(d.keys[0], d.vals[d.keys[0]])
  {
    NextChecked(d, base, checked, before, cap);
    d.RotateIsMoveToEnd();
    TurnedSeq(d.keys, base, checked);
  }

  lemma DropOnce(d: Locks, base: seq<int>, checked: nat, before: Locks, cap: nat)
    requires Turning(d, base, checked, before, cap) && checked < |base| && !d.vals[d.keys[0]] && |base| > cap
    ensures Turning(d.DropOldest(), d.keys[1..], 0, before, cap)
  {
    NextChecked(d, base, checked, before, cap);
    d.DropOldestOk();
    FirstIdleIs(base, Held(before), checked);
    SpinTurns(base, Held(before), cap, checked);
    FirstIdleIs(d.keys, Held(before), 0);
    assert d.keys[1..][0..] + d.keys[1..][..0] == d.keys[1..];
  }

  lemma TurnedAround(d: Locks, base: seq<int>, checked: nat, before: Locks, cap: nat)
    requires Turning(d, base, checked, before, cap) && (|d.keys| <= cap || checked == |base|)
    ensures SpunFrom(d, before, cap)
  {
    assert checked == |base| || checked == 0 ==> base[checked..] + base[..checked] == base;
    assert FirstIdle(base, Held(before)) < |base| ==> base[FirstIdle(base, Held(before))] !in Held(before);
  }

  /** `_dialog_lang_lock` of the outbound translator. */
  class LanguageLocks {
    const cap: nat
    var locks: Locks

    constructor (cap: nat)
      ensures locks == ODict([], map[]) && this.cap == cap
    {
      this.cap, locks := cap, ODict([], map[]);
    }

    /** A lock that is not in the table enters it free; `started` is the table the loop begins with. */
    method DialogLangLock(dialog: int) returns (ghost started: Locks)
      requires locks.Ok()
      modifies this
      ensures started == old(locks).PutLast(dialog, dialog in old(locks).vals && old(locks).vals[dialog])
      ensures SpunFrom(locks, started, cap)
    {
      var held := dialog in locks.vals && locks.vals[dialog];
      locks.PutLastOk(dialog, held);
      locks := locks.PutLast(dialog, held);
      started := locks;
      var checked := 0;
      ghost var base := locks.keys;
      assert base[0..] + base[..0] == base;
      while |locks.keys| > cap && checked < |locks.keys|
        invariant Turning(locks, base, checked, started, cap)
        decreases |locks.keys|, |locks.keys| - checked
      {
        if locks.vals[locks.keys[0]] {
          TurnOnce(locks, base, checked, started, cap);
          locks := locks.PutLast(locks.keys[0], locks.vals[locks.keys[0]]);
          checked := checked + 1;
        } else {
          DropOnce(locks, base, checked, started, cap);
          base := locks.keys[1..];
          locks := locks.DropOldest();
          checked := 0;
        }
      }
      TurnedAround(locks, base, checked, started, cap);
    }
  }

  /** With every lock that left the table its sync time left too, and no other. */
  ghost predicate Together(last: ODict<int, int>, times: ODict<int, int>, locks: Locks, before: Locks) {
    last == times.Minus(before.vals.Keys - locks.vals.Keys)
  }

  lemma StillTogether(last: ODict<int, int>, times: ODict<int, int>, locks: Locks, before: Locks)
    requires Together(last, times, locks, before) && locks.keys != [] && locks.keys[0] in before.vals
    ensures Together(last.Remove(locks.keys[0]), times, locks.DropOldest(), before)
  {
    times.MinusOneMore(before.vals.Keys - locks.vals.Keys, locks.keys[0]);
    assert before.vals.Keys - locks.DropOldest().vals.Keys == before.vals.Keys - locks.vals.Keys + {locks.keys[0]};
  }

  /** The store's locks and sync times. */
  class PeerLocks {
    const cap: nat
    var locks: Locks
    var lastSync: ODict<int, int>

    constructor (cap: nat)
      ensures locks == ODict([], map[]) && lastSync == ODict([], map[]) && this.cap == cap
    {
      this.cap, locks, lastSync := cap, ODict([], map[]), ODict([], map[]);
    }

    /** The first loop of `_evict_idle_peer_state`: with every lock that leaves goes its sync time. */
    method EvictIdleLocks()
      requires locks.Ok()
      modifies this
      ensures SpunFrom(locks, old(locks), cap) && Together(lastSync, old(lastSync), locks, old(locks))
    {
      var checked := 0;
      ghost var base, before, times := locks.keys, locks, lastSync;
      assert base[0..] + base[..0] == base;
      times.MinusNothing();
      assert before.vals.Keys - locks.vals.Keys == {};
      while |locks.keys| > cap && checked < |locks.keys|
        invariant Turning(locks, base, checked, before, cap) && Together(lastSync, times, locks, before)
        decreases |locks.keys|, |locks.keys| - checked
      {
        var peer := locks.keys[0];
        if locks.vals[peer] {
          TurnOnce(locks, base, checked, before, cap);
          locks := locks.PutLast(peer, locks.vals[peer]);
          checked := checked + 1;
        } else {
          DropOnce(locks, base, checked, before, cap);
          StillTogether(lastSync, times, locks, before);
          lastSync := lastSync.Remove(peer);
          base := locks.keys[1..];
          locks := locks.DropOldest();
          checked := 0;
        }
      }
      TurnedAround(locks, base, checked, before, cap);
    }

    /** The second loop. */
    method EvictOldTimes(now: int)
      modifies this
      ensures (lastSync, locks) == Drain(old(lastSync), old(locks), cap, now)
    {
      var stopped := false;
      while |lastSync.keys| > cap && !stopped
        invariant if stopped then (lastSync, locks) == Drain(old(lastSync), old(locks), cap, now)
                  else Drain(lastSync, locks, cap, now) == Drain(old(lastSync), old(locks), cap, now)
        decreases !stopped, |lastSync.keys|
      {
        var peer := lastSync.keys[0];
        if peer !in locks.vals {
          lastSync := lastSync.DropOldest();
        } else if locks.vals[peer] {
          lastSync := lastSync.DropOldest().PutLast(peer, now);
          stopped := true;
        } else {
          lastSync := lastSync.DropOldest();
          locks := locks.Remove(peer);
        }
      }
    }

    /** `_evict_idle_peer_state`: whatever it forgets, no held lock is among it, no lock changes, and the
        table fits or holds only held locks. */
    method EvictIdlePeerState(now: int)
      requires locks.Ok() && lastSync.Ok()
      modifies this
      ensures locks.Ok() && lastSync.Ok() && |lastSync.keys| <= |old(lastSync).keys|
      ensures Safe(locks, old(locks), cap)
      ensures (lastSync, locks) == Forget(old(locks), old(lastSync), cap, now)
    {
      ForgetIsSafe(locks, lastSync, cap, now);
      ghost var before := locks;
      EvictIdleLocks();
      SpunFromIs(locks, before, cap);
      EvictOldTimes(now);
    }

    /** `_peer_lock`. Whether the lock about to be returned is still in the table; while the sync times
        fit it is, unless nobody holds it and `cap` others are held. */
    method PeerLock(peer: int, now: int) returns (ghost started: Locks)
      requires locks.Ok() && lastSync.Ok()
      modifies this
      ensures started == old(locks).PutLast(peer, peer in old(locks).vals && old(locks).vals[peer])
      ensures lastSync.Ok() && Safe(locks, started, cap)
      ensures (lastSync, locks) == Forget(started, old(lastSync), cap, now)
      ensures peer in locks.vals <==> !Goes(started, old(lastSync), cap, peer)
      ensures |old(lastSync).keys| <= cap ==>
                (peer in locks.vals <==>
                   || peer in Held(started) || |started.keys| <= cap
                   || |started.keys| - |IdleKeys(started.keys, Held(started))| < cap)
    {
      var held := peer in locks.vals && locks.vals[peer];
      locks.PutLastOk(peer, held);
      locks := locks.PutLast(peer, held);
      started := locks;
      EvictIdlePeerState(now);
      ForgetLeaves(started, old(lastSync), cap, now, peer);
      NewestSurvives(started, old(lastSync), cap, now);
    }

    /** `_remember_sync`. */
    method RememberSync(peer: int, now: int)
      requires locks.Ok() && lastSync.Ok()
      modifies this
      ensures lastSync.Ok() && Safe(locks, old(locks), cap)
      ensures |lastSync.keys| <= |old(lastSync).keys| + 1
      ensures (lastSync, locks) == Forget(old(locks), old(lastSync).PutLast(peer, now), cap, now)
    {
      lastSync.PutLastOk(peer, now);
      lastSync := lastSync.PutLast(peer, now);
      EvictIdlePeerState(now);
    }
  }

  /** Whether the lock just entered as the newest survives, where the sync times fit. */
  lemma NewestSurvives(started: Locks, times: ODict<int, int>, cap: nat, now: int)
    requires started.Ok() && started.keys != [] && times.Ok()
    ensures var peer, held := started.keys[|started.keys| - 1], Held(started);
            |times.keys| <= cap ==>
              (peer in Forget(started, times, cap, now).1.vals <==>
                 peer in held || |started.keys| <= cap || |started.keys| - |IdleKeys(started.keys, held)| < cap)
  {
    var peer, spun := started.keys[|started.keys| - 1], Spun(started, cap);
    SpunOk(started, cap);
    times.MinusOk(started.vals.Keys - spun.vals.Keys);
    assert peer in started.keys;
    SpinForgetsTheOldestIdle(started.keys, Held(started), cap);
    if peer !in Held(started) {
      ReturnedLockStays(started.keys, Held(started), cap);
    }
    assert peer in spun.vals <==> peer in spun.keys;
  }

  /** What the first loop leaves, as the second one needs it. */
  ghost predicate Safe(after: Locks, before: Locks, cap: nat) {
    && after.Ok()
    && (forall k | k in after.vals :: k in before.vals && after.vals[k] == before.vals[k])
    && (forall k | k in before.vals && before.vals[k] :: k in after.vals)
    && (|after.keys| <= cap || forall k | k in after.vals :: after.vals[k])
  }

  lemma DrainIsSafe(before: Locks, times: ODict<int, int>, spun: Locks, cap: nat, now: int)
    requires times.Ok() && Safe(spun, before, cap)
    ensures var (times', after) := Drain(times, spun, cap, now);
            Safe(after, before, cap) && times'.Ok() && |times'.keys| <= |times.keys|
  {
    var (times', after) := Drain(times, spun, cap, now);
    DrainOk(times, spun, cap, now);
    DrainTakesIdleLocks(times, spun, cap, now);
    Chained(before.vals, spun.vals, times.vals, after.vals, times'.vals);
  }

  lemma Chained(before: map<int, bool>, spun: map<int, bool>, times: map<int, int>, after: map<int, bool>,
                times': map<int, int>)
    requires forall k | k in spun :: k in before && spun[k] == before[k]
    requires forall k | k in before && before[k] :: k in spun
    requires Freed(times, spun, times', after)
    ensures forall k | k in after :: k in before && after[k] == before[k]
    ensures forall k | k in before && before[k] :: k in after
    ensures (forall k | k in spun :: spun[k]) ==> forall k | k in after :: after[k]
  {
  }

  lemma SpunIsSafe(after: Locks, before: Locks, cap: nat)
    requires before.Ok() && SpunFrom(after, before, cap)
    ensures Safe(after, before, cap)
  {
    SpinForgetsTheOldestIdle(before.keys, Held(before), cap);
    FitsOrAllHeld(before.keys, Held(before), cap);
    assert forall k | k in before.vals && before.vals[k] :: k in before.keys && k in Held(before);
    forall k | k in after.vals && |after.keys| > cap
      ensures after.vals[k]
    {
      assert k in after.keys && k in Held(before);
    }
  }
}
