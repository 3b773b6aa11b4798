/** The two in-memory sliding windows: the moderator's message counter (core/moderation.py) and the
    ghostwriter's hourly limit (agent/ghostwrite.py). Each keeps a short deque of times; both are
    compared with the full list of what was recorded under the key since it last entered the table. */
module SlidingWindows {
  import opened OrderedDicts

  ghost predicate Sorted(a: seq<real>) {
    forall i, j | 0 <= i < j < |a| :: a[i] <= a[j]
  }

  /** The times not more than `span` before `now`. */
  function Recent(a: seq<real>, now: real, span: real): seq<real> {
    if a == [] then []
    else (if now - a[0] > span then [] else [a[0]]) + Recent(a[1..], now, span)
  }

  /** `while window and now - window[0] > span: window.popleft()`. */
  function Popped(w: seq<real>, now: real, span: real): seq<real> {
    if w != [] && now - w[0] > span then Popped(w[1..], now, span) else w
  }

  lemma {:induction false} RecentAppend(a: seq<real>, b: seq<real>, now: real, span: real)
    ensures Recent(a + b, now, span) == Recent(a, now, span) + Recent(b, now, span)
  {
    if a == [] {
      assert a + b == b;
    } else {
      assert (a + b)[1..] == a[1..] + b;
      RecentAppend(a[1..], b, now, span);
      var first := if now - a[0] > span then [] else [a[0]];
      assert first + (Recent(a[1..], now, span) + Recent(b, now, span))
          == first + Recent(a[1..], now, span) + Recent(b, now, span);
    }
  }

  lemma {:induction false} NothingOld(a: seq<real>, now: real, span: real)
    requires forall i | 0 <= i < |a| :: now - a[i] <= span
    ensures Recent(a, now, span) == a
  {
    if a != [] {
      NothingOld(a[1..], now, span);
      assert [a[0]] + a[1..] == a;
    }
  }

  /** Where the recent times of a list begin, if it is sorted. */
  function Cut(a: seq<real>, now: real, span: real): (n: nat)
    ensures n <= |a| && (forall i | 0 <= i < n :: now - a[i] > span) && (n < |a| ==> now - a[n] <= span)
  {
    if a == [] || now - a[0] <= span then 0 else 1 + Cut(a[1..], now, span)
  }

  lemma {:induction false} RecentFromCut(a: seq<real>, now: real, span: real)
    requires Sorted(a)
    ensures Recent(a, now, span) == a[Cut(a, now, span)..]
  {
    if a != [] {
      if now - a[0] <= span {
        NothingOld(a, now, span);
      } else {
        RecentFromCut(a[1..], now, span);
        assert [] + Recent(a[1..], now, span) == Recent(a[1..], now, span);
        assert a[1..][Cut(a[1..], now, span)..] == a[1 + Cut(a[1..], now, span)..];
      }
    }
  }

  /** In a sorted list the recent times are a tail: nothing before it is recent, all of it is. */
  lemma RecentIsTail(a: seq<real>, now: real, span: real)
    requires Sorted(a)
    ensures var n := |a| - |Recent(a, now, span)|;
            && 0 <= n && Recent(a, now, span) == a[n..]
            && (forall i | 0 <= i < n :: now - a[i] > span)
            && (forall i | n <= i < |a| :: now - a[i] <= span)
  {
    RecentFromCut(a, now, span);
    var n := Cut(a, now, span);
    forall i | n <= i < |a|
      ensures now - a[i] <= span
    {
      assert a[n] <= a[i];
    }
  }

  lemma {:induction false} PoppedIsRecent(w: seq<real>, now: real, span: real)
    requires Sorted(w)
    ensures Popped(w, now, span) == Recent(w, now, span)
  {
    if w != [] && now - w[0] > span {
      PoppedIsRecent(w[1..], now, span);
    } else {
      RecentIsTail(w, now, span);
    }
  }

  ghost predicate AllOld(a: seq<real>, now: real, span: real) {
    forall i | 0 <= i < |a| :: now - a[i] > span
  }

  lemma {:induction false} NoneRecent(a: seq<real>, now: real, span: real)
    ensures Recent(a, now, span) == [] <==> AllOld(a, now, span)
  {
    if a != [] {
      NoneRecent(a[1..], now, span);
      assert AllOld(a, now, span) <==> now - a[0] > span && AllOld(a[1..], now, span) by {
        assert forall i | 0 <= i < |a| - 1 :: a[1..][i] == a[i + 1];
        assert forall i | 1 <= i < |a| :: a[i] == a[1..][i - 1];
      }
      assert |Recent(a, now, span)| == (if now - a[0] > span then 0 else 1) + |Recent(a[1..], now, span)|;
    }
  }

  /** The deque's one invariant, as of the moment `at`: it is the end of the full list, and what it no
      longer holds is too old. */
  ghost predicate Window(w: seq<real>, full: seq<real>, at: real, span: real) {
    && Sorted(full) && (forall i | 0 <= i < |full| :: full[i] <= at)
    && |w| <= |full| && w == full[|full| - |w|..]
    && AllOld(full[..|full| - |w|], at, span)
  }

  lemma OldPartDrops(past: seq<real>, w: seq<real>, now: real, span: real)
    requires AllOld(past, now, span)
    ensures Recent(past + w, now, span) == Recent(w, now, span)
  {
    NoneRecent(past, now, span);
    RecentAppend(past, w, now, span);
    assert [] + Recent(w, now, span) == Recent(w, now, span);
  }

  lemma OnlyTheWindow(w: seq<real>, full: seq<real>, at: real, now: real, span: real)
    requires Window(w, full, at, span) && at <= now
    ensures Recent(full, now, span) == Recent(w, now, span)
  {
    var n := |full| - |w|;
    assert full == full[..n] + w;
    OldPartDrops(full[..n], w, now, span);
  }

  lemma PopWindow(w: seq<real>, full: seq<real>, at: real, now: real, span: real)
    requires Window(w, full, at, span) && at <= now
    ensures Popped(w, now, span) == Recent(full, now, span)
    ensures Window(Recent(full, now, span), full, now, span)
  {
    OnlyTheWindow(w, full, at, now, span);
    PoppedIsRecent(w, now, span);
    RecentIsTail(full, now, span);
  }

  lemma PushWindow(w: seq<real>, full: seq<real>, at: real, now: real, span: real)
    requires Window(w, full, at, span) && at <= now && 0.0 <= span
    ensures Popped(w + [now], now, span) == Recent(full + [now], now, span)
    ensures Window(Recent(full + [now], now, span), full + [now], now, span)
  {
    var n := |full| - |w|;
    assert (full + [now])[n..] == w + [now];
    assert (full + [now])[..n] == full[..n];
    PopWindow(w + [now], full + [now], now, now, span);
  }

  type Key = int

  const MINUTE := 60.0
  const HOUR := 3600.0

  ghost function At(m: map<Key, seq<real>>, key: Key): seq<real> {
    if key in m then m[key] else []
  }

  /** The keys whose window is the recent part of what was recorded since they entered the table. */
  ghost function InStep(rate: map<Key, seq<real>>, since: map<Key, seq<real>>, at: real, span: real): set<Key> {
    set k | k in rate && Window(rate[k], At(since, k), at, span)
  }

  ghost predicate Windows(rate: map<Key, seq<real>>, since: map<Key, seq<real>>, at: real, span: real) {
    InStep(rate, since, at, span) == rate.Keys
  }

  /** The key's window, empty when the key is not in the table. */
  function Found(rate: map<Key, seq<real>>, key: Key): seq<real> {
    if key in rate then rate[key] else []
  }

  ghost function Before(rate: map<Key, seq<real>>, since: map<Key, seq<real>>, key: Key): seq<real> {
    if key in rate then At(since, key) else []
  }

  lemma FoundWindow(rate: map<Key, seq<real>>, since: map<Key, seq<real>>, at: real, span: real, key: Key)
    requires Windows(rate, since, at, span)
    ensures Window(Found(rate, key), Before(rate, since, key), at, span)
  {
    assert key in rate ==> key in InStep(rate, since, at, span);
  }

  lemma PushFound(rate: map<Key, seq<real>>, since: map<Key, seq<real>>, at: real, span: real, key: Key, now: real)
    requires Windows(rate, since, at, span) && at <= now && 0.0 <= span
    ensures var times := Before(rate, since, key) + [now];
            && Popped(Found(rate, key) + [now], now, span) == Recent(times, now, span)
            && Window(Recent(times, now, span), times, now, span)
  {
    FoundWindow(rate, since, at, span, key);
    PushWindow(Found(rate, key), Before(rate, since, key), at, now, span);
  }

  lemma WindowAges(w: seq<real>, full: seq<real>, at: real, now: real, span: real)
    requires Window(w, full, at, span) && at <= now
    ensures Window(w, full, now, span)
  {
  }

  /** One key's window is replaced and some keys leave; all other windows stay good. */
  lemma WindowsPut(rate: map<Key, seq<real>>, since: map<Key, seq<real>>, at: real, span: real, key: Key,
                   window: seq<real>, times: seq<real>, now: real, rate': map<Key, seq<real>>)
    requires Windows(rate, since, at, span) && at <= now && Window(window, times, now, span)
    requires forall k | k in rate' :: k == key || (k in rate && rate'[k] == rate[k])
    requires key in rate' ==> rate'[key] == window
    ensures Windows(rate', since[key := times], now, span)
  {
    forall k | k in rate'
      ensures Window(rate'[k], At(since[key := times], k), now, span)
    {
      if k != key {
        assert k in InStep(rate, since, at, span);
        WindowAges(rate[k], At(since, k), at, now, span);
      }
    }
  }

  /** Storing a good window and evicting leaves a table in step. */
  lemma StoredInStep(rate: ODict<Key, seq<real>>, since: map<Key, seq<real>>, at: real, span: real, cap: nat,
                     key: Key, now: real, window: seq<real>, times: seq<real>)
    requires rate.Ok() && Windows(rate.vals, since, at, span) && at <= now && Window(window, times, now, span)
    ensures var table := rate.PutLast(key, window).Capped(cap);
            && table.Ok() && |table.keys| <= cap && Windows(table.vals, since[key := times], now, span)
  {
    rate.PutCappedOk(key, window, cap);
    WindowsPut(rate.vals, since, at, span, key, window, times, now, rate.PutLast(key, window).Capped(cap).vals);
  }

  lemma RecordInStep(rate: ODict<Key, seq<real>>, since: map<Key, seq<real>>, at: real, span: real, cap: nat,
                     key: Key, now: real, times: seq<real>, window: seq<real>)
    requires rate.Ok() && Windows(rate.vals, since, at, span) && at <= now && 0.0 <= span
    requires times == Before(rate.vals, since, key) + [now]
    requires window == Popped(Found(rate.vals, key) + [now], now, span)
    ensures window == Recent(times, now, span)
    ensures var table := rate.PutLast(key, window).Capped(cap);
            && table.Ok() && |table.keys| <= cap && Windows(table.vals, since[key := times], now, span)
  {
    PushFound(rate.vals, since, at, span, key, now);
    StoredInStep(rate, since, at, span, cap, key, now, window, times);
  }

  method PopOld(times: seq<real>, now: real, span: real) returns (window: seq<real>)
    ensures window == Popped(times, now, span)
  {
    window := times;
    while window != [] && now - window[0] > span
      invariant Popped(window, now, span) == Popped(times, now, span)
    {
      window := window[1..];
    }
  }

  /** `while len(d) > cap: d.popitem(last=False)`, the eviction loop both classes share. */
  method Evict(d: ODict<Key, seq<real>>, cap: nat) returns (e: ODict<Key, seq<real>>)
    ensures e == d.Capped(cap)
  {
    e := d;
    while |e.keys| > cap
      invariant e.Capped(cap) == d.Capped(cap)
      decreases |e.keys|
    {
      e := e.DropOldest();
    }
  }

  /** What a key's entry no longer knows: everything recorded before it entered the table. */
  ghost function Forgotten(rate: map<Key, seq<real>>, since: map<Key, seq<real>>, lost: map<Key, seq<real>>,
                           key: Key): seq<real> {
    if key in rate then At(lost, key) else At(lost, key) + At(since, key)
  }

  /** Whatever was forgotten, nothing recorded is ever missing from the two lists together. */
  lemma NothingIsMissing(rate: map<Key, seq<real>>, since: map<Key, seq<real>>, lost: map<Key, seq<real>>, key: Key,
                         now: real)
    ensures Forgotten(rate, since, lost, key) + (Before(rate, since, key) + [now])
            == At(lost, key) + At(since, key) + [now]
  {
  }

  /** `_record_rate_window` of the moderator. */
  class MessageCounter {
    const cap: nat
    var rate: ODict<Key, seq<real>>
    /** What was recorded under a key since it last entered the table, and before that. */
    ghost var since: map<Key, seq<real>>
    ghost var lost: map<Key, seq<real>>
    ghost var last: real

    ghost predicate Valid() reads this {
      && rate.Ok() && |rate.keys| <= cap
      && Windows(rate.vals, since, last, MINUTE)
    }

    constructor (cap: nat)
      ensures Valid() && rate.keys == [] && this.cap == cap
      ensures since == map[] && lost == map[]
    {
      this.cap := cap;
      rate, since, lost, last := ODict([], map[]), map[], map[], 0.0;
    }

    method Record(key: Key, now: real) returns (count: nat)
      requires Valid() && last <= now
      modifies this
      ensures Valid() && last == now
      ensures var times := Before(old(rate).vals, old(since), key) + [now];
              && since == old(since)[key := times]
              && count == |Recent(times, now, 60.0)|
              && rate == old(rate).PutLast(key, Recent(times, now, 60.0)).Capped(cap)
      ensures lost == old(lost)[key := Forgotten(old(rate).vals, old(since), old(lost), key)]
    {
      ghost var times := Before(rate.vals, since, key) + [now];
      ghost var forgotten := Forgotten(rate.vals, since, lost, key);
      var window := PopOld(Found(rate.vals, key) + [now], now, MINUTE);
      RecordInStep(rate, since, last, MINUTE, cap, key, now, times, window);
      count := |window|;
      Store(key, window, times, forgotten, now);
    }

    method Store(key: Key, window: seq<real>, ghost times: seq<real>, ghost forgotten: seq<real>, ghost now: real)
      modifies this
      ensures rate == old(rate).PutLast(key, window).Capped(cap)
      ensures since == old(since)[key := times] && lost == old(lost)[key := forgotten] && last == now
    {
      rate := Evict(rate.PutLast(key, window), cap);
      since, lost, last := since[key := times], lost[key := forgotten], now;
    }
  }

  /** The count is the true trailing count, minus what an eviction of the key made it forget: so the
      moderator never over-counts, and is exact for a key that was never evicted. */
  lemma {:induction false} CountIsTrueMinusForgotten(lost: seq<real>, since: seq<real>, now: real, span: real)
    ensures |Recent(lost + since, now, span)| == |Recent(lost, now, span)| + |Recent(since, now, span)|
    ensures |Recent(since, now, span)| == |Recent(lost + since, now, span)|
            <==> AllOld(lost, now, span)
  {
    RecentAppend(lost, since, now, span);
    NoneRecent(lost, now, span);
  }

  /** Any `max + 1` consecutive times span more than `span`. */
  ghost predicate Spaced(a: seq<real>, max: int, span: real) {
    if max <= 0 then a == []
    else forall i | 0 <= i < |a| - max :: a[i + max] - a[i] > span
  }

  /** Admitting only while fewer than `max` recent times exist keeps the list spaced. */
  lemma AdmitKeepsSpaced(a: seq<real>, max: int, span: real, now: real)
    requires Sorted(a) && Spaced(a, max, span) && |Recent(a, now, span)| < max
    ensures Spaced(a + [now], max, span)
  {
    RecentIsTail(a, now, span);
    var b := a + [now];
    forall i | 0 <= i < |b| - max
      ensures b[i + max] - b[i] > span
    {
      if i + max == |a| {
        assert i < |a| - |Recent(a, now, span)|;
      }
    }
  }

  /** The times in the closed interval from `lo` to `hi`. */
  function Inside(a: seq<real>, lo: real, hi: real): seq<real> {
    if a == [] then []
    else (if lo <= a[0] <= hi then [a[0]] else []) + Inside(a[1..], lo, hi)
  }

  lemma {:induction false} InsidePrefix(a: seq<real>, lo: real, hi: real) returns (j: nat)
    requires Sorted(a) && forall i | 0 <= i < |a| :: lo <= a[i]
    ensures j <= |a| && Inside(a, lo, hi) == a[..j] && forall k | 0 <= k < j :: a[k] <= hi
  {
    if a == [] {
      j := 0;
    } else if a[0] <= hi {
      var n := InsidePrefix(a[1..], lo, hi);
      j := n + 1;
      assert a[..j] == [a[0]] + a[1..][..n];
    } else {
      NothingInside(a, lo, hi);
      j := 0;
    }
  }

  lemma {:induction false} NothingInside(a: seq<real>, lo: real, hi: real)
    requires forall i | 0 <= i < |a| :: a[i] > hi
    ensures Inside(a, lo, hi) == []
  {
    if a != [] {
      NothingInside(a[1..], lo, hi);
    }
  }

  lemma {:induction false} InsideIsSlice(a: seq<real>, lo: real, hi: real) returns (i: nat, j: nat)
    requires Sorted(a)
    ensures i <= j <= |a| && Inside(a, lo, hi) == a[i..j]
    ensures forall k | i <= k < j :: lo <= a[k] <= hi
  {
    if a == [] {
      i, j := 0, 0;
    } else if a[0] < lo {
      var m, n := InsideIsSlice(a[1..], lo, hi);
      i, j := m + 1, n + 1;
      var inside := Inside(a[1..], lo, hi);
      assert [] + inside == inside;
      assert a[1..][m..n] == a[i..j];
    } else {
      j := InsidePrefix(a, lo, hi);
      i := 0;
    }
  }

  /** In a spaced list no interval of length `span`, wherever it starts, holds more than `max` times. */
  lemma NoIntervalHoldsMore(a: seq<real>, max: int, span: real, lo: real)
    requires Sorted(a) && Spaced(a, max, span)
    ensures |Inside(a, lo, lo + span)| <= if max <= 0 then 0 else max
  {
    var i, j := InsideIsSlice(a, lo, lo + span);
    assert max > 0 && i + max < |a| ==> a[i + max] - a[i] > span;
  }

  /** The keys whose admitted attempts crowd an hour; there are none. */
  ghost function Crowded(since: map<Key, seq<real>>, max: int): set<Key> {
    set k | k in since && !(Sorted(since[k]) && Spaced(since[k], max, HOUR))
  }

  ghost predicate AllSpaced(since: map<Key, seq<real>>, max: int) {
    Crowded(since, max) == {}
  }

  /** The table after one attempt: the popped window is stored and the oldest keys leave; an admitted
      attempt is then added to the key's window, if the table still has it. */
  function Attempted(rate: ODict<Key, seq<real>>, cap: nat, key: Key, window: seq<real>, over: bool, now: real)
    : ODict<Key, seq<real>>
  {
    var table := rate.PutLast(key, window).Capped(cap);
    if over || key !in table.vals then table else table.Update(key, window + [now])
  }

  ghost function Admitted(before: seq<real>, over: bool, now: real): seq<real> {
    if over then before else before + [now]
  }

  lemma AdmitWindow(before: seq<real>, now: real, span: real)
    requires Window(Recent(before, now, span), before, now, span) && 0.0 <= span
    ensures Window(Recent(before, now, span) + [now], before + [now], now, span)
  {
    RecentAppend(before, [now], now, span);
    PushWindow(Recent(before, now, span), before, now, now, span);
    assert Recent([now], now, span) == [now];
  }

  /** The window an attempt leaves under its key. */
  function Left(window: seq<real>, over: bool, now: real): seq<real> {
    if over then window else window + [now]
  }

  lemma AttemptedOk(rate: ODict<Key, seq<real>>, cap: nat, key: Key, window: seq<real>, over: bool, now: real)
    requires rate.Ok()
    ensures var table := Attempted(rate, cap, key, window, over, now);
            && table.Ok() && |table.keys| <= cap && (0 < cap ==> key in table.vals)
            && forall k | k in table.vals ::
                 if k == key then table.vals[k] == Left(window, over, now)
                 else k in rate.vals && table.vals[k] == rate.vals[k]
  {
    rate.PutCappedOk(key, window, cap);
  }

  /** An attempt moves its key to the newest place, whether it is admitted or not. */
  lemma AttemptedOrder(rate: ODict<Key, seq<real>>, cap: nat, key: Key, window: seq<real>, over: bool, now: real,
                       a: seq<Key>, b: seq<Key>)
    requires key !in a && key !in b && (rate.keys == a + b || rate.keys == a + [key] + b)
    ensures var all := a + b + [key];
            Attempted(rate, cap, key, window, over, now).keys == if |all| <= cap then all else all[|all| - cap..]
  {
    rate.PutCappedOrder(key, window, cap, a, b);
  }

  lemma AttemptInStep(rate: ODict<Key, seq<real>>, since: map<Key, seq<real>>, at: real, cap: nat,
                      key: Key, now: real, over: bool)
    requires rate.Ok() && Windows(rate.vals, since, at, HOUR) && at <= now
    ensures var before := Before(rate.vals, since, key);
            var window := Popped(Found(rate.vals, key), now, HOUR);
            && window == Recent(before, now, HOUR)
            && Windows(Attempted(rate, cap, key, window, over, now).vals, since[key := Admitted(before, over, now)],
                       now, HOUR)
  {
    var window := Popped(Found(rate.vals, key), now, HOUR);
    FoundWindow(rate.vals, since, at, HOUR, key);
    PopWindow(Found(rate.vals, key), Before(rate.vals, since, key), at, now, HOUR);
    if !over {
      AdmitWindow(Before(rate.vals, since, key), now, HOUR);
    }
    AttemptedOk(rate, cap, key, window, over, now);
    WindowsPut(rate.vals, since, at, HOUR, key, Left(window, over, now),
               Admitted(Before(rate.vals, since, key), over, now), now,
               Attempted(rate, cap, key, window, over, now).vals);
  }

  ghost predicate NoLater(a: seq<real>, now: real) {
    forall i | 0 <= i < |a| :: a[i] <= now
  }

  lemma AttemptSpaced(before: seq<real>, max: int, now: real, span: real)
    requires Sorted(before) && NoLater(before, now) && Spaced(before, max, span)
    ensures var after := Admitted(before, |Recent(before, now, span)| >= max, now);
            Sorted(after) && Spaced(after, max, span)
  {
    if |Recent(before, now, span)| < max {
      AdmitKeepsSpaced(before, max, span, now);
    }
  }

  lemma AllSpacedPut(rate: map<Key, seq<real>>, since: map<Key, seq<real>>, at: real, max: int, key: Key, now: real)
    requires Windows(rate, since, at, HOUR) && at <= now && AllSpaced(since, max)
    ensures var before := Before(rate, since, key);
            AllSpaced(since[key := Admitted(before, |Recent(before, now, HOUR)| >= max, now)], max)
  {
    assert key in since ==> key !in Crowded(since, max);
    FoundWindow(rate, since, at, HOUR, key);
    AttemptSpaced(Before(rate, since, key), max, now, HOUR);
  }

  /** One attempt in full: who is refused, and that the new table and history are in order. */
  lemma AttemptKeeps(rate: ODict<Key, seq<real>>, since: map<Key, seq<real>>, at: real, max: int, cap: nat,
                     key: Key, now: real, before: seq<real>, window: seq<real>, over: bool)
    requires rate.Ok() && Windows(rate.vals, since, at, HOUR) && at <= now && AllSpaced(since, max)
    requires before == Before(rate.vals, since, key) && window == Popped(Found(rate.vals, key), now, HOUR)
    requires over <==> |window| >= max
    ensures window == Recent(before, now, HOUR)
    ensures var table := Attempted(rate, cap, key, window, over, now);
            && table.Ok() && |table.keys| <= cap && (0 < cap ==> key in table.vals)
            && Windows(table.vals, since[key := Admitted(before, over, now)], now, HOUR)
    ensures AllSpaced(since[key := Admitted(before, over, now)], max)
  {
    AttemptInStep(rate, since, at, cap, key, now, over);
    AllSpacedPut(rate.vals, since, at, max, key, now);
    AttemptedOk(rate, cap, key, window, over, now);
  }

  /** `_over_rate_limit` of the ghostwriter. */
  class ReplyLimiter {
    const max: int
    const cap: nat
    var rate: ODict<Key, seq<real>>
    /** The attempts admitted under a key since it last entered the table. */
    ghost var since: map<Key, seq<real>>
    ghost var last: real

    ghost predicate Valid() reads this {
      && rate.Ok() && |rate.keys| <= cap
      && Windows(rate.vals, since, last, HOUR)
      && AllSpaced(since, max)
    }

    constructor (max: int, cap: nat)
      ensures Valid() && rate.keys == [] && this.max == max && this.cap == cap
      ensures since == map[]
    {
      this.max, this.cap := max, cap;
      rate, since, last := ODict([], map[]), map[], 0.0;
    }

    method OverRateLimit(key: Key, now: real) returns (over: bool)
      requires Valid() && last <= now
      modifies this
      ensures Valid() && last == now
      ensures var before := Before(old(rate).vals, old(since), key);
              && (over <==> |Recent(before, now, 3600.0)| >= max)
              && since == old(since)[key := if over then before else before + [now]]
              && rate == Attempted(old(rate), cap, key, Recent(before, now, 3600.0), over, now)
      ensures 0 < cap ==> key in rate.vals
    {
      ghost var before := Before(rate.vals, since, key);
      var window := PopOld(Found(rate.vals, key), now, HOUR);
      over := |window| >= max;
      AttemptKeeps(rate, since, last, max, cap, key, now, before, window, over);
      Store(key, window, over, now);
      since, last := since[key := Admitted(before, over, now)], now;
    }

    /** At any moment: no hour, wherever it starts, holds more of a key's admitted attempts than the
        limit, as far back as the key's entry into the table. */
    lemma NoHourHoldsMore(key: Key, start: real)
      requires Valid()
      ensures |Inside(At(since, key), start, start + 3600.0)| <= if max <= 0 then 0 else max
      ensures var times := At(since, key);
              if max <= 0 then times == [] else forall i | 0 <= i < |times| - max :: times[i + max] - times[i] > 3600.0
    {
      assert key in since ==> key !in Crowded(since, max);
      NoIntervalHoldsMore(At(since, key), max, HOUR, start);
    }

    method Store(key: Key, window: seq<real>, over: bool, now: real)
      modifies this`rate
      ensures rate == Attempted(old(rate), cap, key, window, over, now)
    {
      rate := Evict(rate.PutLast(key, window), cap);
      if !over && key in rate.vals {
        rate := rate.Update(key, window + [now]);
      }
    }
  }
}
