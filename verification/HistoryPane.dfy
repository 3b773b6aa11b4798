/** The TUI's message pane for one dialog. */
module HistoryPane {
  import opened Common
  import opened Pages
  import opened MessageStore

  // The pane of tui/app.py: the first page, then older pages prepended on scroll-to-top, until the dialog is
  // recorded as exhausted at its oldest loaded id.

  const PAGE_SIZE: nat := 50

  // --- what the pane claims ---------------------------------------------------------------------

  /** The mounted list is ascending, so without duplicates, and skips no live message between its
      ends: a contiguous stretch of the remote history. */
  ghost predicate Contiguous(mounted: seq<int>, w: World) {
    && Ascending(mounted)
    && (forall i | 0 <= i < |mounted| :: mounted[i] in w.issued)
    && (mounted != [] ==> forall x | x in w.live && mounted[0] <= x <= mounted[|mounted| - 1] :: x in mounted)
  }

  /** A recorded exhaustion is true: nothing live lies below the recorded cursor. */
  ghost predicate Truthful(exhausted: Option<int>, w: World) {
    exhausted.Some? ==> exhausted.value in w.issued && Below(w.live, exhausted.value) == {}
  }

  /** Both claims outlive anything the world does: a later message comes above every issued id. */
  lemma ClaimsStay(mounted: seq<int>, exhausted: Option<int>, a: World, b: World)
    requires Later(a, b) && Ok(b) && Contiguous(mounted, a) && Truthful(exhausted, a)
    ensures Contiguous(mounted, b) && Truthful(exhausted, b)
  {
    if mounted != [] {
      var last := mounted[|mounted| - 1];
      forall x | x in b.live && mounted[0] <= x <= last
        ensures x in mounted
      {
        assert last in a.issued && x in a.issued && x in a.live;
      }
    }
    if exhausted.Some? {
      forall x | x in b.live
        ensures exhausted.value <= x
      {
        assert x in a.issued ==> x in a.live && x !in Below(a.live, exhausted.value);
      }
      assert Below(b.live, exhausted.value) == {};
    }
  }

  /** Prepending a page that skips nothing below the cursor keeps the list contiguous. */
  lemma PrependKeeps(older: seq<int>, mounted: seq<int>, limit: nat, before: World, w: World)
    requires Contiguous(mounted, before) && mounted != [] && Ok(w) && Later(before, w)
    requires SkipsNothing(older, limit, mounted[0], before, w)
    ensures Contiguous(older + mounted, w)
    ensures |older| < limit ==> Below(w.live, (older + mounted)[0]) == {}
  {
    ClaimsStay(mounted, None, before, w);
    var all := older + mounted;
    var last := mounted[|mounted| - 1];
    assert forall i | 0 <= i < |older| :: older[i] in older;
    forall x | x in w.live && x <= last && x !in all
      ensures |older| == limit && x < all[0]
    {
      assert last in before.issued && x in before.issued;
      assert x < mounted[0];
    }
    assert all[|all| - 1] == last && all[0] <= last;
    if |older| < limit {
      forall x | x in w.live
        ensures all[0] <= x
      {
        assert x < all[0] ==> x !in all;
      }
      assert Below(w.live, all[0]) == {};
    }
  }

  /** The rows of a window without a hole, whatever window is stored by then. */
  lemma FirstPage(page: seq<int>, limit: nat, win: Window, w: World)
    requires Ok(w) && Claim(Some(win), w)
    requires page == Newest(Between(w.rows, win.low, win.high), limit)
    ensures Contiguous(page, w)
    ensures |page| < limit && page != [] && win.low <= 1 ==> Below(w.live, page[0]) == {}
  {
    var Window(low, high) := win;
    var inside := Between(w.rows, low, high);
    NewestIsPage(inside, limit);
    assert forall i | 0 <= i < |page| :: page[i] in inside;
    if page != [] {
      assert page[0] in page && page[|page| - 1] in page;
      forall x | x in w.live && low <= x <= high && x !in page
        ensures |page| == limit && x < page[0]
      {
        assert x in inside;
      }
      assert |page| < limit && low <= 1 ==> Below(w.live, page[0]) == {};
    }
  }

  /** While the remote only grows a short first page is the whole history below the high edge. */
  lemma FirstPageExact(page: seq<int>, limit: nat, w: World, high: int)
    requires Ok(w) && page == Newest(Upto(w.live, high), limit) && page != [] && |page| < limit
    ensures page[0] in w.issued && Below(w.live, page[0]) == {}
  {
    NewestIsPage(Upto(w.live, high), limit);
    assert page[0] in Upto(w.live, high);
    assert forall x | x in w.live && x < page[0] :: x in Upto(w.live, high) && x !in page;
  }

  /** A short first page is read as "there is no older history". The cache alone can know this
      exactly when its window starts at the first id a message can have. */
  lemma ShortPageProvesTheStartIff(rows: set<int>, win: Window, page: seq<int>, limit: nat)
    requires (forall id | id in rows :: 0 < id) && 0 <= win.low <= win.high
    requires page == Newest(Between(rows, win.low, win.high), limit) && page != [] && |page| < limit
    ensures win.low <= 1 <==>
            forall issued, live :: Ok(World(issued, live, rows, Some(win), win.low, [])) ==> Below(live, page[0]) == {}
  {
    if win.low <= 1 {
      forall issued, live | Ok(World(issued, live, rows, Some(win), win.low, []))
        ensures Below(live, page[0]) == {}
      {
        FirstPage(page, limit, win, World(issued, live, rows, Some(win), win.low, []));
      }
    } else {
      NewestIsPage(Between(rows, win.low, win.high), limit);
      assert page[0] in Between(rows, win.low, win.high);
      var live := {1};
      assert Ok(World(rows + {1, win.high}, live, rows, Some(win), win.low, []));
      assert 1 in Below(live, page[0]);
    }
  }

  function Ascent(first: int, n: nat): seq<int> {
    seq(n, i => first + i)
  }

  function Ids(n: nat): set<int> {
    Elems(Ascent(1, n))
  }

  lemma AscentIs(first: int, n: nat)
    ensures Ascending(Ascent(first, n))
    ensures forall x :: x in Elems(Ascent(first, n)) <==> first <= x < first + n
  {
    forall x
      ensures x in Elems(Ascent(first, n)) <==> first <= x < first + n
    {
      if first <= x < first + n {
        assert Ascent(first, n)[x - first] == x;
      }
    }
  }

  /** The `n` ids from `first` on are all of a set, or its newest. */
  lemma NewestIds(s: set<int>, first: int, n: nat, limit: nat)
    requires n <= limit && Elems(Ascent(first, n)) <= s
    requires forall x | x in s :: x < first + n && (x < first ==> n == limit)
    ensures Newest(s, limit) == Ascent(first, n)
  {
    var page := Ascent(first, n);
    AscentIs(first, n);
    assert forall i | 0 <= i < n :: page[i] in Elems(page);
    assert forall x | x in s && x !in page :: x !in Elems(page);
    PageIsNewest(page, s, limit);
  }

  lemma ReplacedFresh(ids: set<int>, page: seq<int>, limit: nat)
    requires page != [] && |page| == limit
    ensures Replaced(World(ids, ids, {}, None, 0, []), page, limit)
            == World(ids, ids, Elems(page), Some(Window(page[0], page[limit - 1])), page[0], [])
  {
    var rows := {} + Elems(page);
    assert (set x | x in rows && !(page[0] <= x <= page[limit - 1] && x !in page)) == Elems(page);
  }

  /** The world after the first call of all: `limit + 1` messages, the newest `limit` of them stored. */
  lemma FirstStored(ids: set<int>, limit: nat) returns (at: World)
    requires limit >= 2 && ids == Ids(limit + 1)
    ensures at == Replaced(World(ids, ids, {}, None, 0, []), Newest(Above(ids, 0), limit), limit)
    ensures at == World(ids, ids, Elems(Ascent(2, limit)), Some(Window(2, limit + 1)), 2, [])
  {
    AscentIs(1, limit + 1);
    AscentIs(2, limit);
    NewestIds(Above(ids, 0), 2, limit, limit);
    ReplacedFresh(ids, Ascent(2, limit), limit);
    at := World(ids, ids, Elems(Ascent(2, limit)), Some(Window(2, limit + 1)), 2, []);
  }

  /** Its rows without the newest message. */
  lemma OneShort(rows: set<int>, limit: nat)
    requires limit >= 2 && rows == Elems(Ascent(2, limit))
    ensures |Between(rows, 2, limit + 1)| == limit
    ensures Newest(Between(rows - {limit + 1}, 2, limit + 1), limit) == Ascent(2, limit - 1)
  {
    AscentIs(2, limit);
    AscendingSize(Ascent(2, limit));
    assert Between(rows, 2, limit + 1) == rows;
    AscentIs(2, limit - 1);
    NewestIds(Between(rows - {limit + 1}, 2, limit + 1), 2, limit - 1, limit);
  }

  lemma RetractAndForget(w: World, id: int)
    ensures ApplyAll(w, [Retract(id), Forget({id})]) == w.(live := w.live - {id}, rows := w.rows - {id})
  {
    var mid := Apply(w, Retract(id));
    var last := Apply(mid, Forget({id}));
    assert [Retract(id), Forget({id})][1..] == [Forget({id})];
    assert ApplyAll(mid, [Forget({id})]) == ApplyAll(last, []);
  }

  /** And it can be wrong. Of `limit + 1` messages the first call stored the newest `limit`; the window count
      is what the next call asks for, so it fetches nothing. It reads the sync row, the newest message is
      deleted, and it reads the rows: the page is one short although message 1 is still on the remote. */
  lemma DeletionShortensTheFirstPage(limit: nat) returns (at: World, seen: World)
    requires limit >= 2
    ensures var ids := Ids(limit + 1);
            at == Replaced(World(ids, ids, {}, None, 0, []), Newest(Above(ids, 0), limit), limit)
    ensures Ok(at) && at.sync == Some(Window(2, limit + 1)) && |Between(at.rows, 2, limit + 1)| == limit
    ensures seen == ApplyAll(at, [Retract(limit + 1), Forget({limit + 1})])
    ensures var page := Newest(Between(seen.rows, 2, limit + 1), limit);
            |page| == limit - 1 && page[0] == 2 && 1 in seen.live
  {
    at := FirstStored(Ids(limit + 1), limit);
    seen := at.(live := at.live - {limit + 1}, rows := at.rows - {limit + 1});
    RetractAndForget(at, limit + 1);
    OneShort(at.rows, limit);
    AscentIs(1, limit + 1);
    AscentIs(2, limit);
    assert 1 in Ids(limit + 1);
  }

  /** `[m for m in older if m.id not in self._bubble_index]`. */
  function Unmounted(older: seq<int>, mounted: seq<int>): seq<int> {
    if older == [] then []
    else (if older[0] in mounted then [] else [older[0]]) + Unmounted(older[1..], mounted)
  }

  /** A page below the cursor never repeats a mounted message: the filter keeps all of it. */
  lemma {:induction false} NothingIsMountedTwice(older: seq<int>, mounted: seq<int>)
    requires Ascending(mounted) && mounted != []
    requires forall i | 0 <= i < |older| :: older[i] < mounted[0]
    ensures Unmounted(older, mounted) == older
  {
    if older != [] {
      NothingIsMountedTwice(older[1..], mounted);
      assert older == [older[0]] + older[1..];
    }
  }

  lemma CursorDescends(before: seq<int>, after: seq<int>, a: World, b: World)
    requires before != [] && Contiguous(before, a) && Contiguous(after, b) && Later(a, b)
    requires exists older :: after == older + before
    ensures after != [] && after[|after| - 1] == before[|before| - 1]
    ensures after == before ==> Below(b.issued, after[0]) == Below(a.issued, before[0])
    ensures after != before ==> Below(b.issued, after[0]) < Below(a.issued, before[0])
  {
    var older :| after == older + before;
    if older == [] {
      assert after == before;
    } else {
      assert after[0] == older[0] && before[0] == after[|older|];
      assert after[0] in Below(a.issued, before[0]);
    }
  }

  /** A contiguous list with nothing live below it holds everything live up to its newest message. */
  lemma EverythingIsMounted(mounted: seq<int>, w: World)
    requires mounted != [] && Contiguous(mounted, w) && Below(w.live, mounted[0]) == {}
    ensures Upto(w.live, mounted[|mounted| - 1]) <= Elems(mounted)
    ensures Exact(w) ==> Elems(mounted) == Upto(w.live, mounted[|mounted| - 1])
  {
    var last := mounted[|mounted| - 1];
    assert forall x | x in w.live && x <= last :: x !in Below(w.live, mounted[0]);
    assert forall x | x in mounted :: x <= last;
  }

  /** When a short first page is recorded rightly. */
  lemma ShortPageIs(page: seq<int>, win: Window, seen: World, w: World)
    requires Ok(seen) && Ok(w) && Claim(Some(win), seen) && Later(seen, w)
    requires page == Newest(Between(seen.rows, win.low, win.high), PAGE_SIZE) && page != [] && |page| < PAGE_SIZE
    ensures win.low <= 1 || page == Newest(Upto(seen.live, win.high), PAGE_SIZE) ==> Truthful(Some(page[0]), w)
  {
    FirstPage(page, PAGE_SIZE, win, seen);
    assert page[0] in seen.issued;
    if page == Newest(Upto(seen.live, win.high), PAGE_SIZE) {
      FirstPageExact(page, PAGE_SIZE, seen, win.high);
    }
    if Below(seen.live, page[0]) == {} {
      ClaimsStay(page, Some(page[0]), seen, w);
    }
  }

  // --- the pane -----------------------------------------------------------------------------------

  class Pane {
    const store: MessageStore
    var mounted: seq<int>
    var oldest: Option<int>
    var exhausted: Option<int>
    var backfilling: bool

    ghost predicate Valid()
      reads this, store
    {
      && store.Valid() && store.reading.Idle?
      && Contiguous(mounted, store.W())
      && oldest == (if mounted == [] then None else Some(mounted[0]))
    }

    constructor (store: MessageStore)
      requires store.Valid() && store.reading.Idle?
      ensures this.store == store && Valid() && exhausted == None && !backfilling
    {
      this.store := store;
      mounted, oldest, exhausted, backfilling := [], None, None, false;
    }

    /** `_open_dialog` and `_show_history`: the view is rebuilt from the newest page, the recorded
        exhaustion stays. Switching away cancels a running backfill, which frees its guard. `at` and
        `seen` are the worlds in which the store read its sync row and its rows, `swept` the replacement
        of the window this call made, if any. */
    method Open(stale: bool, between: seq<Call>)
      returns (ghost at: World, ghost seen: World, ghost swept: Option<Sweep>)
      requires store.Valid()
      requires Truthful(exhausted, store.W())
      requires forall i | 0 <= i < |between| :: ValidCall(between[i])
      modifies this, store
      ensures Valid() && !backfilling
      ensures Later(old(store.W()), at) && Later(at, seen) && Later(seen, store.W()) && at.sync.Some?
      ensures mounted == Newest(Between(seen.rows, at.sync.value.low, at.sync.value.high), 50)
      ensures |mounted| >= PAGE_SIZE || at.sync.value.low <= 1 ==> Truthful(exhausted, store.W())
      ensures store.OnlyGrows() && Exact(old(store.W())) && NoneNarrower(between, PAGE_SIZE) ==>
                && Exact(store.W()) && Truthful(exhausted, store.W())
                && mounted == Newest(Upto(seen.live, at.sync.value.high), PAGE_SIZE)
      ensures stale ==> ReachesTopOf(old(store.W()), at)
      ensures stale ==> swept.Some? && Later(old(store.W()), swept.value.snap)
      ensures swept.Some? && NoneOlder(between) ==> forall x | x in mounted :: Fresh(swept.value, seen, x)
    {
      mounted, oldest, backfilling := [], None, false;
      ghost var start := store.W();
      var page;
      ghost var counted;
      page, at, seen, counted, swept := store.History(PAGE_SIZE, stale, between);
      ghost var win := at.sync.value;
      LaterTrans(start, at, seen);
      ClaimsStay([], exhausted, start, seen);
      FirstPage(page, PAGE_SIZE, win, seen);
      ClaimsStay(page, exhausted, seen, store.W());
      mounted := page;
      if page != [] {
        oldest := Some(page[0]);
        if |page| < PAGE_SIZE {
          ShortPageIs(page, win, seen, store.W());
          exhausted := Some(page[0]);
        }
      }
    }

    /** `_maybe_backfill_history` and `_backfill_history` for the open dialog. `fails` is the
        outcome of the fetch. */
    method Backfill(fails: bool) returns (fetched: bool)
      requires Valid() && Truthful(exhausted, store.W())
      modifies this, store
      ensures Valid() && Truthful(exhausted, store.W()) && Later(old(store.W()), store.W())
      ensures backfilling == old(backfilling)
      ensures fetched <==> old(oldest).Some? && old(exhausted) != old(oldest) && !old(backfilling) && !fails
      ensures !fetched ==> mounted == old(mounted) && exhausted == old(exhausted)
      ensures fetched ==> exists older :: mounted == older + old(mounted) && (older == [] ==> exhausted == oldest)
      ensures store.OnlyGrows() && Exact(old(store.W())) ==> Exact(store.W())
    {
      if exhausted == oldest || oldest.None? || backfilling {
        return false;
      }
      backfilling := true;
      if fails {
        backfilling := false;
        return false;
      }
      ghost var start := store.W();
      assert mounted[0] in start.issued;
      var older, seen := store.HistoryBefore(PAGE_SIZE, oldest.value);
      LaterTrans(start, seen, store.W());
      PrependKeeps(older, mounted, PAGE_SIZE, start, store.W());
      ClaimsStay(mounted, exhausted, start, store.W());
      Prepend(older);
      backfilling := false;
      return true;
    }

    method Prepend(older: seq<int>)
      requires Valid() && Truthful(exhausted, store.W()) && mounted != []
      requires forall i | 0 <= i < |older| :: older[i] < mounted[0]
      requires Contiguous(older + mounted, store.W())
      requires |older| < PAGE_SIZE ==> Below(store.live, (older + mounted)[0]) == {}
      modifies this
      ensures Valid() && Truthful(exhausted, store.W()) && backfilling == old(backfilling)
      ensures mounted == older + old(mounted) && (older == [] ==> exhausted == oldest)
    {
      var unseen := Unmounted(older, mounted);
      NothingIsMountedTwice(older, mounted);
      assert (older + mounted)[0] in store.issued;
      assert [] + mounted == mounted;
      if unseen == [] {
        exhausted := oldest;
      } else {
        mounted := unseen + mounted;
        oldest := Some(unseen[0]);
        if |older| < PAGE_SIZE {
          exhausted := oldest;
        }
      }
    }

    /** Scrolling up until the gate closes. The ids below the cursor run out, and then the list
        holds every message up to the newest one loaded that is still on the remote. */
    method BackfillAll()
      requires Valid() && Truthful(exhausted, store.W()) && !backfilling
      modifies this, store
      ensures Valid() && Truthful(exhausted, store.W())
      ensures oldest == None || exhausted == oldest
      ensures mounted != [] ==> Upto(store.live, mounted[|mounted| - 1]) <= Elems(mounted)
      ensures store.OnlyGrows() && Exact(old(store.W())) && mounted != [] ==>
                Elems(mounted) == Upto(store.live, mounted[|mounted| - 1])
      ensures old(mounted) != [] ==> mounted != [] && mounted[|mounted| - 1] == old(mounted[|mounted| - 1])
    {
      while oldest.Some? && exhausted != oldest
        invariant Valid() && Truthful(exhausted, store.W()) && !backfilling
        invariant old(mounted) != [] ==> mounted != [] && mounted[|mounted| - 1] == old(mounted[|mounted| - 1])
        invariant store.OnlyGrows() && Exact(old(store.W())) ==> Exact(store.W())
        decreases if oldest.Some? then Below(store.issued, oldest.value) else {}, exhausted != oldest
      {
        ghost var before, w := mounted, store.W();
        var _ := Backfill(false);
        CursorDescends(before, mounted, w, store.W());
      }
      if mounted != [] {
        EverythingIsMounted(mounted, store.W());
      }
    }
  }
}
