/** The message cache of one peer. */
module MessageStore {
  import opened Common
  import opened Pages

  // The SQLite cache of core/message_store.py, against the remote log it caches. Every storage statement is
  // a step of its own; between any two of them the rest of the world moves: the server posts and retracts
  // messages, live messages and translations are upserted, and deletion events, which take no peer lock,
  // remove rows. A call that has given the lock back does its last two reads among them, while other calls
  // hold the lock.

  datatype Window = Window(low: int, high: int)

  /** `issued` is every id the server ever gave out, `live` those still on the remote, `rows`
      the ids in `messages` and `sync` the row of `message_sync`. The last two are history: the id from
      which on the last `_replace_window` pruned, and the ids that others than the lock holder upserted. */
  datatype World = World(
    issued: set<int>,
    live: set<int>,
    rows: set<int>,
    sync: Option<Window>,
    floor: int,
    fed: seq<int>)

  datatype Move =
    | Post(id: int)
    | Retract(id: int)
    | Upsert(id: int)
    | Forget(ids: set<int>)
    | Read

  /** One move of the world around the lock holder. New ids exceed all earlier ones, a row is only
      ever written for an issued id, and a deletion event only names ids the remote has dropped;
      a move that would break this is no move. `Read` is the next read of a call without the lock. */
  function Apply(w: World, m: Move): World {
    match m
    case Post(id) =>
      if 0 < id && forall x | x in w.issued :: x < id
      then w.(issued := w.issued + {id}, live := w.live + {id})
      else w
    case Retract(id) => w.(live := w.live - {id})
    case Upsert(id) => if id in w.issued then w.(rows := w.rows + {id}, fed := w.fed + [id]) else w
    case Forget(ids) => if ids !! w.live then w.(rows := w.rows - ids) else w
    case Read => w
  }

  function ApplyAll(w: World, moves: seq<Move>): World
    decreases |moves|
  {
    if moves == [] then w else ApplyAll(Apply(w, moves[0]), moves[1..])
  }

  // --- what is kept ------------------------------------------------------------------------

  /** No holes: every message still on the remote whose id lies in the claimed window has a row. */
  ghost predicate NoHoles(w: World) {
    w.sync.Some? ==> Covered(w, w.sync.value.low, w.sync.value.high)
  }

  ghost predicate Covered(w: World, low: int, high: int) {
    forall id | id in w.live && low <= id <= high :: id in w.rows
  }

  ghost predicate Ok(w: World) {
    && (forall id | id in w.issued :: 0 < id)
    && w.live <= w.issued
    && w.rows <= w.issued
    && (w.sync.Some? ==>
          && 0 <= w.sync.value.low <= w.sync.value.high
          && (w.sync.value.high == 0 || w.sync.value.high in w.issued))
    && NoHoles(w)
  }

  /** What any later world owes an earlier one: new ids come above every earlier id, and a
      retracted message does not return. */
  ghost predicate Later(a: World, b: World) {
    && a.issued <= b.issued && a.fed <= b.fed
    && (forall x, y | x in a.issued && y in b.issued && y !in a.issued :: x < y)
    && (forall x | x in b.live && x in a.issued :: x in a.live)
  }

  /** What the lock holder may rely on between two of its own statements: nobody else writes the
      sync row, and the row of a message that is still live stays. */
  ghost predicate Follows(a: World, b: World) {
    && Later(a, b)
    && a.sync == b.sync && a.floor == b.floor
    && (forall x | x in a.rows && x in b.live :: x in b.rows)
  }

  lemma LaterTrans(a: World, b: World, c: World)
    requires Later(a, b) && Later(b, c)
    ensures Later(a, c)
  {
    assert forall x | x in c.live && x in a.issued :: x in b.issued && x in b.live;
  }

  lemma FollowsTrans(a: World, b: World, c: World)
    requires Follows(a, b) && Follows(b, c)
    requires a.rows <= a.issued
    ensures Follows(a, c)
  {
    assert forall x | x in c.live && x in a.issued :: x in b.issued && x in b.live;
  }

  lemma ApplyKeeps(w: World, m: Move)
    requires Ok(w)
    ensures Ok(Apply(w, m)) && Follows(w, Apply(w, m))
  {
  }

  /** Rely: whatever the world does, for however long, the cache has no hole and the lock holder's
      own knowledge stays good. */
  lemma {:induction false} ApplyAllKeeps(w: World, moves: seq<Move>)
    requires Ok(w)
    ensures Ok(ApplyAll(w, moves)) && Follows(w, ApplyAll(w, moves))
    decreases |moves|
  {
    if moves != [] {
      ApplyKeeps(w, moves[0]);
      ApplyAllKeeps(Apply(w, moves[0]), moves[1..]);
      FollowsTrans(w, Apply(w, moves[0]), ApplyAll(w, moves));
    }
  }

  /** While the remote only grows, nothing is ever stored but live messages. */
  ghost predicate Exact(w: World) {
    w.live == w.issued && w.rows <= w.live
  }

  ghost predicate Grows(moves: seq<Move>) {
    forall i | 0 <= i < |moves| :: !moves[i].Retract?
  }

  lemma {:induction false} ApplyAllExact(w: World, moves: seq<Move>)
    requires Exact(w) && Grows(moves)
    ensures Exact(ApplyAll(w, moves))
    decreases |moves|
  {
    if moves != [] {
      ApplyAllExact(Apply(w, moves[0]), moves[1..]);
    }
  }

  // --- pages read from the remote ------------------------------------------------------------

  function PageLow(page: seq<int>, limit: nat): int {
    if |page| < limit then 0 else if page == [] then 0 else page[0]
  }

  function Span(page: seq<int>, limit: nat): Window {
    if page == [] then Window(0, 0) else Window(PageLow(page, limit), page[|page| - 1])
  }

  /** A page read from `snap` that holds all of its live messages from the page's low edge up. */
  ghost predicate CoversTop(page: seq<int>, limit: nat, snap: World) {
    && Ascending(page)
    && (forall i | 0 <= i < |page| :: page[i] in snap.live)
    && (forall x | x in snap.live && PageLow(page, limit) <= x :: x in page)
  }

  /** A read of the newest messages above `minId` covers the top of the remote when it is full,
      or when nothing was excluded to begin with. */
  lemma SincePageCovers(snap: World, minId: int, limit: nat)
    requires Ok(snap) && limit >= 1
    requires |Newest(Above(snap.live, minId), limit)| == limit || minId == 0
    ensures CoversTop(Newest(Above(snap.live, minId), limit), limit, snap)
  {
    var page := Newest(Above(snap.live, minId), limit);
    NewestIsPage(Above(snap.live, minId), limit);
    assert page != [] ==> page[0] in page && page[0] in Above(snap.live, minId);
  }

  /** The rows in the window are the newest `limit` live messages up to its high edge exactly when
      the window reaches low enough: it holds `limit` rows, or nothing live lies below it. */
  lemma LoadedPageIsNewest(w: World, limit: nat)
    requires Ok(w) && Exact(w) && w.sync.Some?
    ensures var Window(low, high) := w.sync.value;
            Newest(Between(w.rows, low, high), limit) == Newest(Upto(w.live, high), limit)
            <==> |Between(w.rows, low, high)| >= limit || Below(w.live, low) == {}
  {
    var Window(low, high) := w.sync.value;
    var inside := Between(w.rows, low, high);
    var all := Upto(w.live, high);
    var page := Newest(inside, limit);
    NewestIsPage(inside, limit);
    if |inside| >= limit || Below(w.live, low) == {} {
      forall x | x in all && x !in page
        ensures |page| == limit && forall y | y in page :: x < y
      {
        if x !in inside {
          assert x in Below(w.live, low);
          assert forall y | y in page :: y in inside;
        }
      }
      assert IsPage(page, all, limit);
      PageIsNewest(page, all, limit);
    } else {
      Inhabited(Below(w.live, low));
      var x :| x in Below(w.live, low);
      NewestIsPage(all, limit);
      assert x in all && x !in inside;
      assert forall y | y in page :: y in inside;
    }
  }

  /** `_load_window` can serve `limit` messages: the window holds that many, or reaches the start
      of history. */
  ghost predicate Serves(w: World, limit: nat) {
    w.sync.Some? && (w.sync.value.low == 0 || |Between(w.rows, w.sync.value.low, w.sync.value.high)| >= limit)
  }

  /** The window's high edge is not below any message that `before` already had. */
  ghost predicate ReachesTopOf(before: World, w: World) {
    w.sync.Some? && forall x | x in before.live && x in w.live :: x <= w.sync.value.high
  }

  /** An older page skips nothing: a live message below `offset` that was there from the start is
      on it, or the page is full of newer ones. */
  ghost predicate SkipsNothing(page: seq<int>, limit: nat, offset: int, before: World, w: World) {
    && Ascending(page) && |page| <= limit
    && (forall i | 0 <= i < |page| :: page[i] < offset && page[i] in w.issued)
    && (forall x | x in w.live && x in before.issued && x < offset && x !in page ::
          |page| == limit && forall y | y in page :: x < y)
  }

  lemma TopTrans(a: World, b: World, c: World)
    requires Later(a, b) && Later(b, c) && ReachesTopOf(b, c) && a.live <= a.issued
    ensures ReachesTopOf(a, c)
  {
    assert forall x | x in a.live && x in c.live :: x in b.issued && x in b.live;
  }

  /** Whatever the window could serve it can still serve: more rows, or a lower edge. */
  ghost predicate ServesOn(a: World, b: World) {
    forall n: nat :: Serves(a, n) ==> Serves(b, n)
  }

  lemma SameWindowServes(a: World, b: World)
    requires Follows(a, b) && Exact(a) && Exact(b)
    ensures ServesOn(a, b)
  {
    if a.sync.Some? {
      var Window(low, high) := a.sync.value;
      assert Between(a.rows, low, high) <= Between(b.rows, low, high);
      SubsetSize(Between(a.rows, low, high), Between(b.rows, low, high));
    }
  }

  lemma DeeperWindowServes(w: World, newLow: int)
    requires w.sync.Some? && newLow <= w.sync.value.low && 0 <= newLow
    ensures ServesOn(w, w.(sync := Some(Window(newLow, w.sync.value.high))))
  {
    var Window(low, high) := w.sync.value;
    SubsetSize(Between(w.rows, low, high), Between(w.rows, newLow, high));
  }

  lemma SubsetSize(a: set<int>, b: set<int>)
    requires a <= b
    ensures |a| <= |b|
  {
    assert b == a + (b - a);
  }

  lemma {:induction false} AscendingSize(p: seq<int>)
    requires Ascending(p)
    ensures |Elems(p)| == |p|
  {
    if p != [] {
      var init := p[..|p| - 1];
      AscendingSize(init);
      assert p == init + [p[|p| - 1]];
      assert Elems(p) == Elems(init) + {p[|p| - 1]};
    }
  }

  // --- a call without the lock -----------------------------------------------------------------

  /** How far `_load_window` is: it reads the sync row, then the rows of that window. `at` and `seen`
      are the worlds it read them in. */
  datatype Reading = Idle | BeforeRow | BeforeRows(at: World) | Loaded(at: World, seen: World)

  function NextRead(r: Reading, w: World): Reading {
    match r
    case BeforeRow => BeforeRows(w)
    case BeforeRows(at) => Loaded(at, w)
    case _ => r
  }

  function ReadAll(r: Reading, w: World, moves: seq<Move>): Reading
    decreases |moves|
  {
    if moves == [] then r
    else ReadAll(if moves[0].Read? then NextRead(r, w) else r, Apply(w, moves[0]), moves[1..])
  }

  /** What the call was promised when it gave the lock back: it began at `base`, its window reaches the
      top of it, and while the remote only grows the window can serve `need` messages. */
  datatype Watch = Watch(base: World, need: nat, top: bool, grow: bool)

  ghost predicate Good(v: Watch, w: World) {
    && Ok(w) && w.sync.Some? && Later(v.base, w)
    && (v.top ==> ReachesTopOf(v.base, w))
    && (v.grow ==> Exact(w) && Serves(w, v.need))
  }

  /** A window, perhaps no longer the stored one, that has no hole. */
  ghost predicate Claim(row: Option<Window>, w: World) {
    row.Some? ==>
      && 0 <= row.value.low <= row.value.high
      && (row.value.high == 0 || row.value.high in w.issued)
      && Covered(w, row.value.low, row.value.high)
  }

  /** At every moment: the promise still holds if the row is yet to be read, and what was read stays as
      good as it was. */
  ghost predicate Attended(v: Watch, r: Reading, w: World) {
    && Later(v.base, w) && v.base.live <= v.base.issued
    && (v.grow ==> Exact(w))
    && match r
       case Idle => true
       case BeforeRow => Good(v, w)
       case BeforeRows(at) => Good(v, at) && Later(at, w) && Claim(at.sync, w)
       case Loaded(at, seen) =>
         && Good(v, at) && Later(at, seen) && Claim(at.sync, seen)
         && Ok(seen) && (v.grow ==> Exact(seen)) && Later(seen, w)
  }

  lemma GoodStays(v: Watch, a: World, b: World)
    requires Good(v, a) && v.base.live <= v.base.issued && Ok(b) && Follows(a, b) && (v.grow ==> Exact(b))
    ensures Good(v, b)
  {
    LaterTrans(v.base, a, b);
    StillTop(v.base, a, b);
    if v.grow {
      SameWindowServes(a, b);
    }
  }

  lemma ClaimStays(row: Option<Window>, a: World, b: World)
    requires Claim(row, a) && Ok(b) && Follows(a, b)
    ensures Claim(row, b)
  {
    if row.Some? {
      forall id | id in b.live && row.value.low <= id <= row.value.high
        ensures id in b.rows
      {
        assert id in a.issued;
      }
    }
  }

  /** Statements that leave the sync row and the rows of live messages alone disturb no reader. */
  lemma AttendedStays(v: Watch, r: Reading, a: World, b: World)
    requires Attended(v, r, a) && Ok(b) && Follows(a, b) && (v.grow ==> Exact(b))
    ensures Attended(v, r, b)
  {
    LaterTrans(v.base, a, b);
    match r
    case Idle =>
    case BeforeRow => GoodStays(v, a, b);
    case BeforeRows(at) =>
      LaterTrans(at, a, b);
      ClaimStays(at.sync, a, b);
    case Loaded(at, seen) => LaterTrans(seen, a, b);
  }

  lemma ReadAttended(v: Watch, r: Reading, w: World)
    requires Attended(v, r, w) && Ok(w)
    ensures Attended(v, NextRead(r, w), w)
  {
  }

  lemma {:induction false} MovesAttended(v: Watch, r: Reading, w: World, moves: seq<Move>)
    requires Attended(v, r, w) && Ok(w) && (v.grow ==> Grows(moves))
    ensures Attended(v, ReadAll(r, w, moves), ApplyAll(w, moves))
    decreases |moves|
  {
    if moves != [] {
      var next, m := Apply(w, moves[0]), moves[0];
      ApplyKeeps(w, m);
      if v.grow {
        assert [m][1..] == [] && ApplyAll(w, [m]) == ApplyAll(next, []);
        ApplyAllExact(w, [m]);
      }
      ReadAttended(v, r, w);
      AttendedStays(v, r, w, next);
      MovesAttended(v, if m.Read? then NextRead(r, w) else r, next, moves[1..]);
    }
  }

  /** A sync row that is no worse than the old one disturbs no reader. */
  lemma NewRowAttended(v: Watch, r: Reading, w: World, row: Window, floor: int)
    requires Attended(v, r, w)
    requires var done := w.(sync := Some(row), floor := floor);
             && Ok(done)
             && (r.BeforeRow? && v.top ==> ReachesTopOf(v.base, done))
             && (r.BeforeRow? && v.grow ==> Serves(done, v.need))
    ensures Attended(v, r, w.(sync := Some(row), floor := floor))
  {
  }

  /** The high edge of a row that was read already is known to `snap`. */
  ghost predicate RowKnown(r: Reading, snap: World) {
    r.BeforeRows? && r.at.sync.Some? ==> r.at.sync.value.high == 0 || r.at.sync.value.high in snap.issued
  }

  /** How reading goes on while nobody writes the sync row. */
  ghost predicate ReadOn(a: Reading, b: Reading, row: Option<Window>) {
    && (a.Idle? <==> b.Idle?)
    && (b.BeforeRow? ==> a.BeforeRow?)
    && (b.BeforeRows? ==> b == a || (a.BeforeRow? && b.at.sync == row))
  }

  lemma {:induction false} MovesReadOn(r: Reading, w: World, moves: seq<Move>)
    ensures ReadOn(r, ReadAll(r, w, moves), w.sync)
    decreases |moves|
  {
    if moves != [] {
      var next := if moves[0].Read? then NextRead(r, w) else r;
      MovesReadOn(next, Apply(w, moves[0]), moves[1..]);
    }
  }

  /** The window that was read, with the rows that were read: without a hole, and while the remote only
      grows the remote's own page. */
  lemma LoadedIsPage(v: Watch, at: World, seen: World, w: World)
    requires Attended(v, Loaded(at, seen), w) && v.grow
    ensures var Window(low, high) := at.sync.value;
            Newest(Between(seen.rows, low, high), v.need) == Newest(Upto(seen.live, high), v.need)
  {
    var Window(low, high) := at.sync.value;
    assert Between(at.rows, low, high) <= Between(seen.rows, low, high);
    SubsetSize(Between(at.rows, low, high), Between(seen.rows, low, high));
    assert low == 0 ==> Below(seen.live, low) == {};
    LoadedPageIsNewest(seen.(sync := at.sync), v.need);
  }

  // --- messages that are gone ---------------------------------------------------------------------

  /** Others upserted the id since `mark`. */
  ghost predicate Fed(w: World, mark: nat, x: int) {
    exists i :: mark <= i < |w.fed| && w.fed[i] == x
  }

  /** What one replacement of the window did: it read `snap`, and pruned when `mark` upserts of others had
      been made. `level` says that no older page deepens the window afterwards. */
  datatype Sweep = Sweep(snap: World, mark: nat, level: bool)

  /** Not a message that was gone from the remote at the sweep, unless others upserted it since. */
  ghost predicate Fresh(s: Sweep, w: World, x: int) {
    x in s.snap.live || x !in s.snap.issued || Fed(w, s.mark, x)
  }

  ghost predicate Clean(s: Sweep, low: int, high: int, w: World) {
    forall x | x in w.rows && low <= x <= high :: Fresh(s, w, x)
  }

  /** At every moment the part of the window the reader will be, or was, told of is clean. */
  ghost predicate Tidy(s: Sweep, r: Reading, w: World) {
    && Later(s.snap, w) && s.mark <= |w.fed|
    && match r
       case Idle => true
       case BeforeRow =>
         w.sync.Some? && Clean(s, w.floor, w.sync.value.high, w) && (s.level ==> w.floor <= w.sync.value.low)
       case BeforeRows(at) =>
         at.sync.Some? && Clean(s, at.floor, at.sync.value.high, w) && (s.level ==> at.floor <= at.sync.value.low)
       case Loaded(at, seen) =>
         at.sync.Some? && Clean(s, at.floor, at.sync.value.high, seen) && (s.level ==> at.floor <= at.sync.value.low)
  }

  /** The rows a stretch adds are fresh. */
  ghost predicate Brings(s: Sweep, a: World, b: World) {
    forall x | x in b.rows && x !in a.rows :: Fresh(s, b, x)
  }

  lemma CleanStays(s: Sweep, low: int, high: int, a: World, b: World)
    requires Clean(s, low, high, a) && Brings(s, a, b) && a.fed <= b.fed
    ensures Clean(s, low, high, b)
  {
    forall x | x in b.rows && low <= x <= high
      ensures Fresh(s, b, x)
    {
      if x in a.rows && Fed(a, s.mark, x) {
        var i :| s.mark <= i < |a.fed| && a.fed[i] == x;
        assert b.fed[i] == x;
      }
    }
  }

  lemma TidyStays(s: Sweep, r: Reading, a: World, b: World)
    requires Tidy(s, r, a) && Later(a, b) && a.sync == b.sync && a.floor == b.floor && Brings(s, a, b)
    ensures Tidy(s, r, b)
  {
    LaterTrans(s.snap, a, b);
    match r
    case Idle =>
    case BeforeRow => CleanStays(s, a.floor, a.sync.value.high, a, b);
    case BeforeRows(at) => CleanStays(s, at.floor, at.sync.value.high, a, b);
    case Loaded(at, seen) =>
  }

  lemma ApplyBrings(s: Sweep, w: World, m: Move)
    requires s.mark <= |w.fed|
    ensures Brings(s, w, Apply(w, m))
  {
    var next := Apply(w, m);
    if m.Upsert? && m.id in w.issued {
      assert next.fed[|w.fed|] == m.id;
    }
  }

  lemma {:induction false} MovesTidy(s: Sweep, r: Reading, w: World, moves: seq<Move>)
    requires Tidy(s, r, w) && Ok(w)
    ensures Tidy(s, ReadAll(r, w, moves), ApplyAll(w, moves))
    decreases |moves|
  {
    if moves != [] {
      var next, m := Apply(w, moves[0]), moves[0];
      var r' := if m.Read? then NextRead(r, w) else r;
      ApplyKeeps(w, m);
      ApplyBrings(s, w, m);
      assert Tidy(s, r', w);
      TidyStays(s, r', w, next);
      MovesTidy(s, r', next, moves[1..]);
    }
  }

  lemma NewRowTidy(s: Sweep, r: Reading, w: World, row: Window, floor: int)
    requires Tidy(s, r, w)
    requires r.BeforeRow? ==> Clean(s, floor, row.high, w) && (s.level ==> floor <= row.low)
    ensures Tidy(s, r, w.(sync := Some(row), floor := floor))
  {
    var done := w.(sync := Some(row), floor := floor);
    assert forall x | Fed(w, s.mark, x) :: Fed(done, s.mark, x);
  }

  /** The rows between the edges of a page are on it, or others upserted them since `cut`; no row at all is
      left under an empty one. */
  ghost predicate Swept(page: seq<int>, limit: nat, cut: nat, w: World) {
    forall x | x in w.rows && (page == [] || Span(page, limit).low <= x <= Span(page, limit).high) ::
      x in page || Fed(w, cut, x)
  }

  /** What outside moves can add to the rows. */
  ghost predicate OnlyFed(a: World, b: World) {
    a.fed <= b.fed && forall x | x in b.rows && x !in a.rows :: Fed(b, |a.fed|, x)
  }

  lemma {:induction false} MovesFeed(w: World, moves: seq<Move>)
    ensures OnlyFed(w, ApplyAll(w, moves))
    decreases |moves|
  {
    if moves != [] {
      var next, end := Apply(w, moves[0]), ApplyAll(w, moves);
      MovesFeed(next, moves[1..]);
      forall x | x in end.rows && x !in w.rows
        ensures Fed(end, |w.fed|, x)
      {
        if x in next.rows {
          assert next.fed[|w.fed|] == x;
          assert end.fed[|w.fed|] == x;
        }
      }
    }
  }

  lemma SweptStays(page: seq<int>, limit: nat, cut: nat, a: World, b: World)
    requires Swept(page, limit, cut, a) && OnlyFed(a, b) && cut <= |a.fed|
    ensures Swept(page, limit, cut, b)
  {
    forall x | x in b.rows && (page == [] || Span(page, limit).low <= x <= Span(page, limit).high) && x !in page
      ensures Fed(b, cut, x)
    {
      if x in a.rows {
        var i :| cut <= i < |a.fed| && a.fed[i] == x;
        assert b.fed[i] == x;
      }
    }
  }

  /** The window is exactly the page's, and nothing in it was gone when the page was read, but for what
      others upserted since. */
  ghost predicate Fitted(snap: World, cut: nat, w: World) {
    && Later(snap, w) && |snap.fed| <= cut <= |w.fed| && w.sync.Some? && w.floor == w.sync.value.low
    && forall x | x in w.rows && w.floor <= x <= w.sync.value.high :: x in snap.live || Fed(w, cut, x)
  }

  lemma SweptFits(page: seq<int>, limit: nat, cut: nat, snap: World, w: World)
    requires Swept(page, limit, cut, w) && Later(snap, w) && |snap.fed| <= cut <= |w.fed|
    requires w.sync == Some(Span(page, limit)) && w.floor == Span(page, limit).low
    requires forall i | 0 <= i < |page| :: page[i] in snap.live
    ensures Fitted(snap, cut, w)
  {
  }

  lemma FittedStays(snap: World, cut: nat, a: World, b: World)
    requires Fitted(snap, cut, a) && Follows(a, b) && OnlyFed(a, b)
    ensures Fitted(snap, cut, b)
  {
    LaterTrans(snap, a, b);
    forall x | x in b.rows && b.floor <= x <= b.sync.value.high && x !in snap.live
      ensures Fed(b, cut, x)
    {
      if x in a.rows {
        var i :| cut <= i < |a.fed| && a.fed[i] == x;
        assert b.fed[i] == x;
      }
    }
  }

  /** A page read later holds nothing that was gone before. */
  lemma PageIsFresh(s: Sweep, page: seq<int>, snap: World, w: World)
    requires Later(s.snap, snap) && Ok(snap) && forall i | 0 <= i < |page| :: page[i] in snap.live
    ensures forall x | x in page :: Fresh(s, w, x)
  {
  }

  /** So a page swept now is clean for a sweep of before. */
  lemma SweptIsClean(s: Sweep, page: seq<int>, limit: nat, cut: nat, snap: World, w: World)
    requires Swept(page, limit, cut, w) && s.mark <= cut && Later(s.snap, snap) && Ok(snap)
    requires forall i | 0 <= i < |page| :: page[i] in snap.live
    ensures Clean(s, Span(page, limit).low, Span(page, limit).high, w)
  {
    PageIsFresh(s, page, snap, w);
    forall x | x in w.rows && Span(page, limit).low <= x <= Span(page, limit).high && x !in page
      ensures Fresh(s, w, x)
    {
      var i :| cut <= i < |w.fed| && w.fed[i] == x;
    }
  }

  /** Deepening the window by an older page makes no such claim: between the page and the old edge a row
      can stand whose message is gone, and the next page shows it. */
  lemma DeepenedWindowShowsTheDeleted() returns (w: World, deep: World)
    ensures Ok(w) && 2 in w.rows && 2 !in w.live && w.sync == Some(Window(3, 3))
    ensures Newest(Below(w.live, 3), 1) == [1]
    ensures deep == w.(sync := Some(Window(1, 3))) && Ok(deep)
    ensures 2 in Newest(Between(deep.rows, 1, 3), 2)
  {
    w := World({1, 2, 3}, {1, 3}, {1, 2, 3}, Some(Window(3, 3)), 3, []);
    deep := w.(sync := Some(Window(1, 3)));
    assert Below(w.live, 3) == {1};
    assert Max({1}) == 1 && {1} - {1} == {} && Newest({1}, 1) == Newest({}, 0) + [1] == [1];
    NewestIsPage(Between(deep.rows, 1, 3), 2);
    assert 2 in Between(deep.rows, 1, 3);
    var page := Newest(Between(deep.rows, 1, 3), 2);
    assert Between(deep.rows, 1, 3) == {1, 2, 3};
    TopTwo(page);
  }

  lemma TopTwo(page: seq<int>)
    requires IsPage(page, {1, 2, 3}, 2)
    ensures 2 in page
  {
    assert 2 !in page ==> |page| == 2;
    assert |page| == 2 ==> page[0] in page && page[1] in page;
  }

  // --- the single statements of _replace_window ------------------------------------------------

  /** `DELETE FROM messages WHERE dialog_id = ?`. */
  function Wipe(w: World): World {
    w.(rows := {})
  }

  function Prune(w: World, win: Window, page: seq<int>): World {
    w.(rows := set x | x in w.rows && !(win.low <= x <= win.high && x !in page))
  }

  /** Wiping makes a hole exactly when a live message sits in the claimed window. */
  lemma WipeIsSafeIff(w: World)
    requires Ok(w) && w.sync.Some?
    ensures NoHoles(Wipe(w)) <==> Between(w.live, w.sync.value.low, w.sync.value.high) == {}
  {
    var Window(low, high) := w.sync.value;
    if Between(w.live, low, high) == {} {
      assert forall id | id in w.live && low <= id <= high :: id in Between(w.live, low, high);
    } else {
      Inhabited(Between(w.live, low, high));
    }
  }

  lemma EmptyPageEmptyRemote(limit: nat, snap: World)
    requires Ok(snap) && CoversTop([], limit, snap)
    ensures snap.live == {}
  {
    assert forall x | x in snap.live :: PageLow([], limit) <= x;
  }

  /** Under the peer lock an empty read of the whole remote makes the wipe safe: the window has
      not moved since, and everything posted since lies above it. */
  lemma WipeKeeps(snap: World, w: World)
    requires Ok(snap) && Ok(w) && Follows(snap, w) && snap.live == {}
    ensures Ok(Wipe(w)) && Later(snap, Wipe(w))
  {
  }

  lemma WipeAttended(v: Watch, r: Reading, snap: World, w: World)
    requires Attended(v, r, w) && Ok(w) && Ok(snap) && Follows(snap, w) && snap.live == {} && RowKnown(r, snap)
    requires v.grow ==> Exact(snap)
    ensures Attended(v, r, Wipe(w))
  {
    WipeKeeps(snap, w);
  }

  /** Without the lock it is not: the window may have been set by a call that read the remote
      after the empty read. */
  lemma UnlockedWipeMakesAHole() returns (snap: World, w: World)
    ensures Ok(snap) && snap.live == {} && Ok(w) && Later(snap, w)
    ensures !NoHoles(Wipe(w))
  {
    snap := World({}, {}, {}, None, 0, []);
    w := World({1}, {1}, {1}, Some(Window(0, 1)), 0, []);
    assert 1 in w.live;
  }

  /** Pruning only removes rows of messages that are gone: whatever is live between the page's
      edges was live when the page was read, hence is on it. This needs no lock. */
  lemma PruneKeeps(page: seq<int>, limit: nat, snap: World, w: World)
    requires Ok(snap) && Ok(w) && Later(snap, w)
    requires page != [] && CoversTop(page, limit, snap)
    ensures var pruned := Prune(w, Span(page, limit), page);
            && Ok(pruned) && Follows(w, pruned)
            && (forall x | x in w.live :: x in w.rows <==> x in pruned.rows)
  {
    var Window(low, high) := Span(page, limit);
    assert high in snap.issued;
    forall x | x in w.live && low <= x <= high
      ensures x in page
    {
      assert x in snap.issued;
    }
  }

  lemma CommitKeeps(page: seq<int>, limit: nat, snap: World, w: World)
    requires Ok(snap) && Ok(w) && Later(snap, w)
    requires page != [] && CoversTop(page, limit, snap)
    requires Stored(page, w)
    ensures var done := w.(sync := Some(Span(page, limit)));
            Ok(done) && ReachesTopOf(snap, done)
  {
    var Window(low, high) := Span(page, limit);
    assert high in snap.issued;
    assert page[0] in snap.live && page[0] <= high;
    forall x | x in w.live && low <= x <= high
      ensures x in w.rows
    {
      assert x in snap.issued;
    }
    forall x | x in snap.live
      ensures x <= high
    {
      assert x in page ==> x <= high;
    }
  }

  /** Every live message of the page has its row. */
  ghost predicate Stored(page: seq<int>, w: World) {
    && (forall x | x in page :: x in w.issued)
    && (forall x | x in page && x in w.live :: x in w.rows)
  }

  lemma StoredStays(page: seq<int>, a: World, b: World)
    requires Follows(a, b) && Stored(page, a)
    ensures Stored(page, b)
  {
    assert forall x | x in page && x in b.live :: x in a.live;
  }

  lemma StoredOneMore(page: seq<int>, k: nat, a: World, b: World)
    requires k < |page| && Follows(a, b) && Stored(page[..k], a)
    requires page[k] in b.issued && (page[k] in b.live ==> page[k] in b.rows)
    ensures Stored(page[..k + 1], b)
  {
    StoredStays(page[..k], a, b);
    assert page[..k + 1] == page[..k] + [page[k]];
  }

  lemma PageServes(page: seq<int>, limit: nat, w: World)
    requires Ok(w) && Exact(w) && page != [] && Ascending(page)
    requires w.sync == Some(Span(page, limit)) && forall i | 0 <= i < |page| :: page[i] in w.issued
    ensures Serves(w, limit)
  {
    var Window(low, high) := Span(page, limit);
    if low != 0 {
      assert Elems(page) <= Between(w.rows, low, high);
      AscendingSize(page);
      SubsetSize(Elems(page), Between(w.rows, low, high));
    }
  }

  // --- older pages -------------------------------------------------------------------------------

  /** What the window can serve below an offset inside it is the remote's own page. */
  lemma CachedPage(w: World, limit: nat, offset: int)
    requires Ok(w) && limit >= 1 && offset > 0
    requires w.sync.Some? && w.sync.value.low <= offset <= w.sync.value.high
    ensures var page := Newest(From(w.rows, w.sync.value.low, offset), limit);
            w.sync.value.low == 0 || |page| >= limit ==>
              && SkipsNothing(page, limit, offset, w, w)
              && (Exact(w) ==> page == Newest(Below(w.live, offset), limit))
  {
    var low := w.sync.value.low;
    var inside := From(w.rows, low, offset);
    var page := Newest(inside, limit);
    NewestIsPage(inside, limit);
    if low == 0 || |page| >= limit {
      assert forall i | 0 <= i < |page| :: page[i] in inside;
      forall x | x in w.live && x < offset && x !in page
        ensures |page| == limit && forall y | y in page :: x < y
      {
        if low <= x {
          assert x in inside;
        }
      }
      if Exact(w) {
        PageIsNewest(page, Below(w.live, offset), limit);
      }
    }
  }

  lemma FetchedPage(w: World, limit: nat, offset: int)
    requires Ok(w)
    ensures SkipsNothing(Newest(Below(w.live, offset), limit), limit, offset, w, w)
  {
    NewestIsPage(Below(w.live, offset), limit);
    var page := Newest(Below(w.live, offset), limit);
    assert forall i | 0 <= i < |page| :: page[i] in Below(w.live, offset);
    assert forall x | x in w.live && x < offset :: x in Below(w.live, offset);
  }

  lemma SkipsNothingLater(page: seq<int>, limit: nat, offset: int, start: World, seen: World, w: World)
    requires SkipsNothing(page, limit, offset, seen, seen)
    requires Later(start, seen) && Later(seen, w)
    ensures SkipsNothing(page, limit, offset, start, w)
  {
    assert forall x | x in w.live && x in start.issued :: x in seen.issued && x in seen.live;
  }

  lemma SkipsNothingFrom(page: seq<int>, limit: nat, offset: int, start: World, seen: World, w: World)
    requires SkipsNothing(page, limit, offset, seen, w) && Later(start, seen)
    ensures SkipsNothing(page, limit, offset, start, w)
  {
    assert forall x | x in start.issued :: x in seen.issued;
  }

  /** Absorbing a fetched page below an offset inside the window keeps the window contiguous. */
  lemma ExtendKeeps(page: seq<int>, limit: nat, offset: int, seen: World, w: World)
    requires Ok(seen) && Ok(w) && Follows(seen, w) && Stored(page, w) && limit >= 1 && offset > 0
    requires SkipsNothing(page, limit, offset, seen, seen)
    requires w.sync.Some? && w.sync.value.low <= offset <= w.sync.value.high
    ensures var newLow := if |page| < limit then 0 else page[0];
            newLow < w.sync.value.low ==> Ok(w.(sync := Some(Window(newLow, w.sync.value.high))))
  {
    var Window(low, high) := w.sync.value;
    var newLow := if |page| < limit then 0 else page[0];
    if newLow < low {
      assert newLow != 0 ==> page[0] in page;
      forall x | x in w.live && newLow <= x <= high
        ensures x in w.rows
      {
        if x < low {
          assert x in seen.issued && x in seen.live;
          assert x in page;
        }
      }
    }
  }

  datatype Call = Recent(limit: nat, stale: bool) | Older(limit: nat, offset: int)

  predicate ValidCall(c: Call) {
    c.limit >= 1 && (c.Older? ==> c.offset > 0)
  }

  ghost predicate NoneNarrower(calls: seq<Call>, limit: nat) {
    forall i | 0 <= i < |calls| :: calls[i].Recent? ==> calls[i].limit >= limit
  }

  /** A step that leaves the high edge alone, or reads the top again, keeps it at the top. */
  lemma StillTop(a: World, b: World, c: World)
    requires Later(a, b) && Later(b, c) && a.live <= a.issued
    requires ReachesTopOf(b, c) || (b.sync.Some? && c.sync.Some? && c.sync.value.high == b.sync.value.high)
    ensures ReachesTopOf(a, b) ==> ReachesTopOf(a, c)
  {
    assert forall x | x in a.live && x in c.live :: x in b.issued && x in b.live;
  }

  /** The statements of `_replace_window`, with nothing in between. */
  function Replaced(w: World, page: seq<int>, limit: nat): World {
    if page == [] then Wipe(w).(sync := Some(Window(0, 0)), floor := 0)
    else
      Prune(w.(rows := w.rows + Elems(page)), Span(page, limit), page)
        .(sync := Some(Span(page, limit)), floor := Span(page, limit).low)
  }

  /** A call for fewer messages in the gap, which replaces the window by its own, cuts the page that is
      then loaded exactly when the remote has more messages than that call asked for. */
  lemma NarrowerCallCutsIff(w: World, n: nat, limit: nat)
    requires Ok(w) && Exact(w) && 1 <= n < limit
    ensures var after := Replaced(w, Newest(Above(w.live, 0), n), n);
            && Ok(after) && after.sync.Some?
            && var Window(low, high) := after.sync.value;
               Newest(Between(after.rows, low, high), limit) == Newest(Upto(after.live, high), limit)
               <==> |w.live| <= n
  {
    var page := Newest(Above(w.live, 0), n);
    assert Above(w.live, 0) == w.live;
    NewestIsPage(w.live, n);
    if page == [] {
      assert w.live == {};
    } else {
      NarrowerCallCuts(w, page, n, limit);
    }
  }

  lemma NarrowerCallCuts(w: World, page: seq<int>, n: nat, limit: nat)
    requires Ok(w) && Exact(w) && 1 <= n < limit && page != [] && IsPage(page, w.live, n)
    requires |page| == if |w.live| <= n then |w.live| else n
    ensures var after := Replaced(w, page, n);
            && Ok(after) && after.sync.Some?
            && var Window(low, high) := after.sync.value;
               Newest(Between(after.rows, low, high), limit) == Newest(Upto(after.live, high), limit)
               <==> |w.live| <= n
  {
    var after := Replaced(w, page, n);
    var Window(low, high) := after.sync.value;
    assert page[0] in page;
    assert Between(after.rows, low, high) == Elems(page);
    AscendingSize(page);
    LoadedPageIsNewest(after, limit);
    if |w.live| <= n {
      assert Elems(page) <= w.live;
      SameSize(Elems(page), w.live);
      assert Below(after.live, low) == {};
    } else {
      assert low == page[0];
      if Below(after.live, low) == {} {
        forall x | x in w.live
          ensures x in page
        {
          assert x !in page ==> x in Below(after.live, low);
        }
        SubsetSize(w.live, Elems(page));
      }
    }
  }

  lemma SameSize(a: set<int>, b: set<int>)
    requires a <= b && |a| == |b|
    ensures a == b
  {
    assert b == a + (b - a);
  }

  lemma SameFed(a: World, b: World)
    requires a.fed == b.fed
    ensures forall m: nat, x | Fed(a, m, x) :: Fed(b, m, x)
  {
  }

  /** The test of `history` on the number of stored rows. */
  ghost predicate Short(w: World, limit: nat) {
    w.sync.Some? && w.sync.value.low > 0 && |Between(w.rows, w.sync.value.low, w.sync.value.high)| < limit
  }

  /** The window was replaced after `start`, reaches its top, and nothing in it was gone then. */
  ghost predicate SweptBy(s: Sweep, start: World, w: World) {
    Later(start, s.snap) && Fitted(s.snap, s.mark, w) && ReachesTopOf(start, w)
  }

  lemma SweptSince(s: Sweep, start: World, before: World, w: World)
    requires SweptBy(s, before, w) && Later(start, before) && Later(before, w) && start.live <= start.issued
    ensures SweptBy(s, start, w)
  {
    LaterTrans(start, before, s.snap);
    TopTrans(start, before, w);
  }

  lemma PrunedIs(page: seq<int>, limit: nat, snap: World, w: World)
    requires Ok(snap) && Ok(w) && Later(snap, w)
    requires page != [] && CoversTop(page, limit, snap) && Stored(page, w)
    ensures var pruned := Prune(w, Span(page, limit), page);
            && Ok(pruned) && Follows(w, pruned) && pruned.rows <= w.rows && (Exact(w) ==> Exact(pruned))
            && Stored(page, pruned) && Swept(page, limit, |w.fed|, pruned)
  {
    PruneKeeps(page, limit, snap, w);
  }

  lemma StillPruned(page: seq<int>, limit: nat, cut: nat, before: World, pruned: World, w: World)
    requires Follows(before, pruned) && before.rows <= before.issued && cut == |before.fed| == |pruned.fed|
    requires Stored(page, pruned) && Swept(page, limit, cut, pruned) && Follows(pruned, w) && OnlyFed(pruned, w)
    ensures Follows(before, w) && Stored(page, w) && Swept(page, limit, cut, w)
  {
    FollowsTrans(before, pruned, w);
    StoredStays(page, pruned, w);
    SweptStays(page, limit, cut, pruned, w);
  }

  lemma AboutToRead(v: Watch, w: World)
    requires Good(v, w) && v.base.live <= v.base.issued
    ensures Attended(v, BeforeRow, w)
  {
  }

  lemma SweptToRead(s: Sweep, w: World)
    requires Fitted(s.snap, s.mark, w)
    ensures Tidy(s, BeforeRow, w)
  {
  }

  ghost predicate InWindow(w: World, offset: int) {
    w.sync.Some? && w.sync.value.low <= offset <= w.sync.value.high
  }

  /** The older page as the rows of the window give it. */
  ghost function FromWindow(w: World, limit: nat, offset: int): seq<int>
    requires w.sync.Some?
  {
    Newest(From(w.rows, w.sync.value.low, offset), limit)
  }

  /** What an older page from the remote does to the window: below an offset inside it, the window reaches
      down to the page's oldest, or to the beginning if the page is short; else nothing. */
  ghost predicate Deepened(a: Option<Window>, b: Option<Window>, page: seq<int>, limit: nat, offset: int) {
    b == if a.Some? && a.value.low <= offset <= a.value.high && PageLow(page, limit) < a.value.low
         then Some(Window(PageLow(page, limit), a.value.high)) else a
  }

  lemma OnThePage(w: World, limit: nat, offset: int)
    ensures forall x | x in Newest(Below(w.live, offset), limit) :: x in w.live
  {
    NewestIsPage(Below(w.live, offset), limit);
  }

  ghost predicate NoneOlder(calls: seq<Call>) {
    forall i | 0 <= i < |calls| :: calls[i].Recent?
  }

  class MessageStore {
    /** What the rest of the world does at each gap between two statements; arbitrary. */
    const sched: nat -> seq<Move>
    var gap: nat

    // the remote
    var issued: set<int>
    var live: set<int>

    // the database
    var rows: set<int>
    var sync: Option<Window>

    // history
    var floor: int
    var fed: seq<int>

    // the call that gave the lock back, if any, and what it was promised
    var reading: Reading
    ghost var watch: Watch
    ghost var sweep: Option<Sweep>

    ghost function W(): World reads this {
      World(issued, live, rows, sync, floor, fed)
    }

    ghost predicate OnlyGrows() {
      forall n: nat :: Grows(sched(n))
    }

    ghost predicate Valid() reads this {
      && Ok(W()) && Attended(watch, reading, W()) && (watch.grow ==> OnlyGrows())
      && (sweep.Some? ==> Tidy(sweep.value, reading, W()))
    }

    /** No reader counts on the window staying as deep as it is. */
    ghost predicate MayDeepen() reads this {
      reading.Idle? || sweep.None? || !sweep.value.level
    }

    /** What the lock holder may upsert. */
    ghost predicate MayUpsert(id: int) reads this {
      id in issued && (sweep.Some? ==> id in sweep.value.snap.live || id !in sweep.value.snap.issued)
    }

    constructor (sched: nat -> seq<Move>)
      ensures Valid() && reading.Idle? && Exact(W()) && this.sched == sched && sync == None
    {
      this.sched := sched;
      gap := 0;
      issued, live, rows, sync := {}, {}, {}, None;
      floor, fed := 0, [];
      reading, sweep := Idle, None;
      watch := Watch(World({}, {}, {}, None, 0, []), 0, false, false);
    }

    /** An await: the world moves. */
    method Interfere()
      requires Valid()
      modifies `gap, `issued, `live, `rows, `sync, `floor, `fed, `reading
      ensures Valid() && Follows(old(W()), W()) && OnlyFed(old(W()), W()) && ReadOn(old(reading), reading, sync)
      ensures OnlyGrows() && Exact(old(W())) ==> Exact(W()) && ServesOn(old(W()), W())
    {
      ghost var start, first := W(), reading;
      var moves := sched(gap);
      var i := 0;
      while i < |moves|
        invariant 0 <= i <= |moves|
        invariant ApplyAll(W(), moves[i..]) == ApplyAll(start, moves)
        invariant ReadAll(reading, W(), moves[i..]) == ReadAll(first, start, moves)
      {
        match moves[i] {
          case Post(id) =>
            if 0 < id && forall x | x in issued :: x < id {
              issued, live := issued + {id}, live + {id};
            }
          case Retract(id) => live := live - {id};
          case Upsert(id) => if id in issued { rows, fed := rows + {id}, fed + [id]; }
          case Forget(ids) => if ids !! live { rows := rows - ids; }
          case Read => reading := NextRead(reading, World(issued, live, rows, sync, floor, fed));
        }
        assert moves[i..][1..] == moves[i + 1..];
        i := i + 1;
      }
      gap := gap + 1;
      Moved(start, first, moves);
      if OnlyGrows() && Exact(start) {
        assert Grows(sched(old(gap)));
        ApplyAllExact(start, moves);
        SameWindowServes(start, W());
      }
    }

    ghost method Moved(start: World, first: Reading, moves: seq<Move>)
      requires Ok(start) && Attended(watch, first, start) && (watch.grow ==> Grows(moves))
      requires sweep.Some? ==> Tidy(sweep.value, first, start)
      ensures var w, r := ApplyAll(start, moves), ReadAll(first, start, moves);
              && Ok(w) && Attended(watch, r, w) && Follows(start, w) && ReadOn(first, r, start.sync)
              && OnlyFed(start, w) && (sweep.Some? ==> Tidy(sweep.value, r, w))
    {
      ApplyAllKeeps(start, moves);
      MovesFeed(start, moves);
      if sweep.Some? {
        MovesTidy(sweep.value, first, start, moves);
      }
      MovesAttended(watch, first, start, moves);
      MovesReadOn(first, start, moves);
    }

    /** `next` keeps everything `Valid` asks for. */
    ghost predicate Allows(next: World) reads this {
      && Ok(next) && Attended(watch, reading, next) && (watch.grow ==> OnlyGrows())
      && (sweep.Some? ==> Tidy(sweep.value, reading, next))
    }

    /** One statement of the lock holder on the rows, and the await after it. */
    method WriteRows(newRows: set<int>, ghost next: World)
      requires next == W().(rows := newRows) && Allows(next)
      modifies `gap, `issued, `live, `rows, `sync, `floor, `fed, `reading
      ensures Valid() && Follows(next, W()) && OnlyFed(next, W()) && ReadOn(old(reading), reading, sync)
      ensures OnlyGrows() && Exact(next) ==> Exact(W()) && ServesOn(next, W())
    {
      rows := newRows;
      Interfere();
    }

    /** `_set_sync_row`, and the await after it. */
    method SetSyncRow(row: Window, newFloor: int, ghost next: World)
      requires next == W().(sync := Some(row), floor := newFloor) && Allows(next)
      modifies `gap, `issued, `live, `rows, `sync, `floor, `fed, `reading
      ensures Valid() && Follows(next, W()) && OnlyFed(next, W()) && ReadOn(old(reading), reading, sync)
      ensures OnlyGrows() && Exact(next) ==> Exact(W()) && ServesOn(next, W())
    {
      sync, floor := Some(row), newFloor;
      Interfere();
    }

    /** A statement of the lock holder that adds fresh rows at most. */
    ghost method StatementTidy(before: World, after: World)
      requires sweep.Some? ==> Tidy(sweep.value, reading, before)
      requires Later(before, after) && before.sync == after.sync && before.floor == after.floor
      requires sweep.Some? ==> forall x | x in after.rows && x !in before.rows ::
                 x in sweep.value.snap.live || x !in sweep.value.snap.issued
      ensures sweep.Some? ==> Tidy(sweep.value, reading, after)
    {
      if sweep.Some? {
        TidyStays(sweep.value, reading, before, after);
      }
    }

    /** `_upsert_message`, and the await after it. */
    method Upsert(id: int)
      requires Valid() && MayUpsert(id)
      modifies `gap, `issued, `live, `rows, `sync, `floor, `fed, `reading
      ensures Valid() && Follows(old(W()), W()) && (reading.Idle? <==> old(reading).Idle?)
      ensures id in issued && (id in live ==> id in rows)
      ensures OnlyGrows() && Exact(old(W())) ==> Exact(W())
    {
      ghost var before, upserted := W(), W().(rows := rows + {id});
      AttendedStays(watch, reading, before, upserted);
      StatementTidy(before, upserted);
      WriteRows(rows + {id}, upserted);
      FollowsTrans(before, upserted, W());
    }

    /** `_upsert_message` for each message of a page, one statement each. */
    method UpsertAll(page: seq<int>)
      requires Valid() && forall i | 0 <= i < |page| :: MayUpsert(page[i])
      modifies `gap, `issued, `live, `rows, `sync, `floor, `fed, `reading
      ensures Valid() && Follows(old(W()), W()) && (reading.Idle? <==> old(reading).Idle?)
      ensures Stored(page, W())
      ensures OnlyGrows() && Exact(old(W())) ==> Exact(W())
    {
      ghost var start := W();
      for k := 0 to |page|
        invariant Valid() && Follows(start, W()) && (reading.Idle? <==> old(reading).Idle?)
        invariant forall i | 0 <= i < |page| :: MayUpsert(page[i])
        invariant Stored(page[..k], W())
        invariant OnlyGrows() && Exact(start) ==> Exact(W())
      {
        ghost var before := W();
        Upsert(page[k]);
        FollowsTrans(start, before, W());
        StoredOneMore(page, k, before, W());
      }
      assert page[..|page|] == page;
    }

    /** `snap` is the world in which the page was read. */
    ghost predicate ReadUnderLock(page: seq<int>, limit: nat, snap: World) reads this {
      && Ok(snap) && Follows(snap, W()) && CoversTop(page, limit, snap)
      && Later(watch.base, snap) && (watch.grow ==> Exact(snap) && watch.need <= limit)
      && (sweep.Some? ==> Later(sweep.value.snap, snap))
    }

    /** `DELETE FROM messages` for an empty remote, and the await after it. */
    method WipeRows(limit: nat, ghost snap: World) returns (ghost cut: nat)
      requires Valid() && ReadUnderLock([], limit, snap) && RowKnown(reading, snap) && snap.live == {}
      modifies `gap, `issued, `live, `rows, `sync, `floor, `fed, `reading
      ensures Valid() && Later(snap, W()) && (reading.Idle? <==> old(reading).Idle?)
      ensures |old(fed)| <= cut <= |fed| && Swept([], limit, cut, W())
      ensures OnlyGrows() && Exact(old(W())) ==> Exact(W())
    {
      WipeKeeps(snap, W());
      WipeAttended(watch, reading, snap, W());
      ghost var wiped := Wipe(W());
      StatementTidy(W(), wiped);
      cut := |fed|;
      WriteRows({}, wiped);
      LaterTrans(snap, wiped, W());
      SweptStays([], limit, cut, wiped, W());
    }

    /** An empty page: every row goes, and the window is empty. */
    method Clear(limit: nat, ghost snap: World) returns (ghost cut: nat)
      requires Valid() && ReadUnderLock([], limit, snap) && RowKnown(reading, snap) && snap.live == {}
      modifies `gap, `issued, `live, `rows, `sync, `floor, `fed, `reading
      ensures Valid() && Later(snap, W()) && (reading.Idle? <==> old(reading).Idle?)
      ensures sync == Some(Window(0, 0)) && floor == 0 && ReachesTopOf(snap, W())
      ensures |old(fed)| <= cut <= |fed| && forall x | x in rows :: Fed(W(), cut, x)
      ensures OnlyGrows() && Exact(old(W())) ==> Exact(W()) && Serves(W(), limit)
    {
      cut := WipeRows(limit, snap);
      CommitEmpty(limit, snap, cut);
    }

    method CommitEmpty(limit: nat, ghost snap: World, ghost cut: nat)
      requires Valid() && Ok(snap) && Later(snap, W()) && snap.live == {} && cut <= |fed|
      requires Later(watch.base, snap) && (watch.grow ==> watch.need <= limit) && Swept([], limit, cut, W())
      requires sweep.Some? ==> Later(sweep.value.snap, snap) && sweep.value.mark <= cut
      modifies `gap, `issued, `live, `rows, `sync, `floor, `fed, `reading
      ensures Valid() && Later(snap, W()) && (reading.Idle? <==> old(reading).Idle?)
      ensures sync == Some(Window(0, 0)) && floor == 0 && ReachesTopOf(snap, W())
      ensures cut <= |fed| && forall x | x in rows :: Fed(W(), cut, x)
      ensures OnlyGrows() && Exact(old(W())) ==> Exact(W()) && Serves(W(), limit)
    {
      NewTop(snap, Window(0, 0), limit);
      TidyCommit([], limit, cut, snap);
      ghost var cleared := W().(sync := Some(Window(0, 0)), floor := 0);
      SameFed(W(), cleared);
      SetSyncRow(Window(0, 0), 0, cleared);
      LaterTrans(snap, cleared, W());
      SweptStays([], limit, cut, cleared, W());
    }

    /** `_replace_window`. A row between the page's edges is on the page afterwards, or others upserted it
        since the rows were pruned, after `cut` upserts of theirs; under an empty page every row is. */
    method ReplaceWindow(page: seq<int>, limit: nat, ghost snap: World) returns (ghost cut: nat)
      requires Valid() && ReadUnderLock(page, limit, snap) && RowKnown(reading, snap)
      modifies `gap, `issued, `live, `rows, `sync, `floor, `fed, `reading
      ensures Valid() && Later(snap, W()) && (reading.Idle? <==> old(reading).Idle?)
      ensures sync == Some(Span(page, limit)) && floor == Span(page, limit).low && ReachesTopOf(snap, W())
      ensures |old(fed)| <= cut <= |fed| && Swept(page, limit, cut, W())
      ensures OnlyGrows() && Exact(old(W())) ==> Exact(W()) && Serves(W(), limit)
    {
      if page == [] {
        EmptyPageEmptyRemote(limit, snap);
        cut := Clear(limit, snap);
      } else {
        ghost var start := W();
        UpsertAll(page);
        FollowsTrans(snap, start, W());
        cut := PruneAndCommit(page, limit, snap);
      }
    }

    /** A row that reaches the top of `snap` disturbs no reader. */
    ghost method NewTop(snap: World, row: Window, limit: nat)
      requires Valid() && Later(watch.base, snap) && Later(snap, W())
      requires Ok(W().(sync := Some(row))) && ReachesTopOf(snap, W().(sync := Some(row)))
      requires watch.grow ==> watch.need <= limit && Serves(W().(sync := Some(row)), limit)
      ensures Attended(watch, reading, W().(sync := Some(row), floor := row.low))
    {
      var done := W().(sync := Some(row), floor := row.low);
      TopTrans(watch.base, snap, done);
      NewRowAttended(watch, reading, W(), row, row.low);
    }

    /** And the row of a page just swept is clean for the reader. */
    ghost method TidyCommit(page: seq<int>, limit: nat, cut: nat, snap: World)
      requires Valid() && Swept(page, limit, cut, W()) && Ok(snap)
      requires sweep.Some? ==> Later(sweep.value.snap, snap) && sweep.value.mark <= cut
      requires forall i | 0 <= i < |page| :: page[i] in snap.live
      ensures var row := Span(page, limit);
              sweep.Some? ==> Tidy(sweep.value, reading, W().(sync := Some(row), floor := row.low))
    {
      if sweep.Some? {
        SweptIsClean(sweep.value, page, limit, cut, snap, W());
        NewRowTidy(sweep.value, reading, W(), Span(page, limit), Span(page, limit).low);
      }
    }

    /** `_prune_window`, and the await after it. */
    method PruneRows(page: seq<int>, limit: nat, ghost snap: World) returns (ghost cut: nat)
      requires Valid() && ReadUnderLock(page, limit, snap)
      requires page != [] && Stored(page, W())
      modifies `gap, `issued, `live, `rows, `sync, `floor, `fed, `reading
      ensures Valid() && Follows(old(W()), W()) && (reading.Idle? <==> old(reading).Idle?)
      ensures Stored(page, W()) && |old(fed)| <= cut <= |fed| && Swept(page, limit, cut, W())
      ensures OnlyGrows() && Exact(old(W())) ==> Exact(W())
    {
      var low, high := PageLow(page, limit), page[|page| - 1];
      ghost var filled, pruned := W(), Prune(W(), Span(page, limit), page);
      PrunedIs(page, limit, snap, filled);
      AttendedStays(watch, reading, filled, pruned);
      StatementTidy(filled, pruned);
      cut := |fed|;
      var left := set x | x in rows && !(low <= x <= high && x !in page);
      WriteRows(left, pruned);
      StillPruned(page, limit, cut, filled, pruned, W());
    }

    method PruneAndCommit(page: seq<int>, limit: nat, ghost snap: World) returns (ghost cut: nat)
      requires Valid() && ReadUnderLock(page, limit, snap)
      requires page != [] && Stored(page, W())
      modifies `gap, `issued, `live, `rows, `sync, `floor, `fed, `reading
      ensures Valid() && Later(snap, W()) && (reading.Idle? <==> old(reading).Idle?)
      ensures sync == Some(Span(page, limit)) && floor == Span(page, limit).low && ReachesTopOf(snap, W())
      ensures |old(fed)| <= cut <= |fed| && Swept(page, limit, cut, W())
      ensures OnlyGrows() && Exact(old(W())) ==> Exact(W()) && Serves(W(), limit)
    {
      ghost var filled := W();
      cut := PruneRows(page, limit, snap);
      FollowsTrans(snap, filled, W());
      Commit(page, limit, snap, cut);
    }

    method Commit(page: seq<int>, limit: nat, ghost snap: World, ghost cut: nat)
      requires Valid() && ReadUnderLock(page, limit, snap)
      requires page != [] && Stored(page, W()) && cut <= |fed| && Swept(page, limit, cut, W())
      requires sweep.Some? ==> sweep.value.mark <= cut
      modifies `gap, `issued, `live, `rows, `sync, `floor, `fed, `reading
      ensures Valid() && Later(snap, W()) && (reading.Idle? <==> old(reading).Idle?)
      ensures sync == Some(Span(page, limit)) && floor == Span(page, limit).low && ReachesTopOf(snap, W())
      ensures cut <= |fed| && Swept(page, limit, cut, W())
      ensures OnlyGrows() && Exact(old(W())) ==> Exact(W()) && Serves(W(), limit)
    {
      CommitKeeps(page, limit, snap, W());
      ghost var row := Span(page, limit);
      ghost var committed := W().(sync := Some(row), floor := row.low);
      if Exact(W()) {
        PageServes(page, limit, committed);
      }
      NewTop(snap, row, limit);
      TidyCommit(page, limit, cut, snap);
      SameFed(W(), committed);
      SetSyncRow(Window(PageLow(page, limit), page[|page| - 1]), PageLow(page, limit), committed);
      LaterTrans(snap, committed, W());
      StillTop(snap, committed, W());
      SweptStays(page, limit, cut, committed, W());
    }

    /** A caller under the lock that asks for enough not to narrow the reader's window. */
    ghost predicate Wide(limit: nat) reads this {
      watch.grow ==> watch.need <= limit
    }

    method SyncFullWindow(limit: nat) returns (ghost snap: World, ghost cut: nat)
      requires Valid() && limit >= 1 && Wide(limit)
      modifies `gap, `issued, `live, `rows, `sync, `floor, `fed, `reading
      ensures Valid() && (reading.Idle? <==> old(reading).Idle?)
      ensures Later(old(W()), W()) && ReachesTopOf(old(W()), W())
      ensures Later(old(W()), snap) && Fitted(snap, cut, W())
      ensures OnlyGrows() && Exact(old(W())) ==> Exact(W()) && Serves(W(), limit)
    {
      snap := W();
      var page := Newest(Above(live, 0), limit);
      SincePageCovers(snap, 0, limit);
      Interfere();
      cut := ReplaceWindow(page, limit, snap);
      SweptFits(page, limit, cut, snap, W());
    }

    method SyncHistory(limit: nat, row: Option<Window>) returns (ghost snap: World, ghost cut: nat)
      requires Valid() && limit >= 1 && Wide(limit) && row == sync
      modifies `gap, `issued, `live, `rows, `sync, `floor, `fed, `reading
      ensures Valid() && (reading.Idle? <==> old(reading).Idle?)
      ensures Later(old(W()), W()) && ReachesTopOf(old(W()), W())
      ensures Later(old(W()), snap) && Fitted(snap, cut, W())
      ensures OnlyGrows() && Exact(old(W())) ==> Exact(W()) && Serves(W(), limit)
    {
      var highId := if row.Some? then row.value.high else 0;
      ghost var start := W();
      var page := Newest(Above(live, highId), limit);
      NewestIsPage(Above(live, highId), limit);
      Interfere();
      if row.None? || |page| >= limit {
        snap := start;
        SincePageCovers(snap, highId, limit);
        cut := ReplaceWindow(page, limit, snap);
        SweptFits(page, limit, cut, snap, W());
      } else {
        ghost var mid := W();
        snap, cut := SyncFullWindow(limit);
        LaterTrans(start, mid, snap);
        LaterTrans(start, mid, W());
        TopTrans(start, mid, W());
      }
    }

    /** The test of `history` that widens a window too short for the call: replaced exactly when it does
        not start at the beginning and held fewer rows than asked for as `counted` was the world. */
    method Widen(limit: nat, row: Option<Window>)
      returns (row': Option<Window>, ghost counted: World, ghost swept: Option<Sweep>)
      requires Valid() && limit >= 1 && Wide(limit) && row == sync
      modifies `gap, `issued, `live, `rows, `sync, `floor, `fed, `reading
      ensures Valid() && (reading.Idle? <==> old(reading).Idle?)
      ensures Later(old(W()), W()) && row' == sync && (row.None? <==> row'.None?)
      ensures counted == old(W()) && (swept.Some? <==> Short(counted, limit))
      ensures if swept.Some? then SweptBy(swept.value, old(W()), W()) else sync == old(sync)
      ensures OnlyGrows() && Exact(old(W())) ==> Exact(W()) && (sync.Some? ==> Serves(W(), limit))
    {
      row', swept, counted := row, None, W();
      if row.Some? && row.value.low > 0 {
        var count := |Between(rows, row.value.low, row.value.high)|;
        assert count >= limit ==> Serves(counted, limit);
        Interfere();
        if count < limit {
          ghost var before := W();
          ghost var snap, cut := SyncFullWindow(limit);
          ghost var synced := W();
          LaterTrans(counted, before, snap);
          LaterTrans(counted, before, synced);
          TopTrans(counted, before, synced);
          row' := sync;
          Interfere();
          LaterTrans(counted, synced, W());
          StillTop(counted, synced, W());
          FittedStays(snap, cut, synced, W());
          swept := Some(Sweep(snap, cut, false));
        }
      }
    }

    /** The test on the cooldown, after the one on the number of rows. */
    method Refresh(limit: nat, stale: bool, row: Option<Window>, ghost widened: Option<Sweep>)
      returns (ghost swept: Option<Sweep>)
      requires Valid() && limit >= 1 && Wide(limit) && row == sync
      modifies `gap, `issued, `live, `rows, `sync, `floor, `fed, `reading
      ensures Valid() && (reading.Idle? <==> old(reading).Idle?) && Later(old(W()), W())
      ensures if stale || row.None? then swept.Some? && SweptBy(swept.value, old(W()), W())
              else swept == widened && W() == old(W())
      ensures OnlyGrows() && Exact(old(W())) ==> Exact(W()) && (stale || row.None? ==> Serves(W(), limit))
    {
      swept := widened;
      if row.None? || stale {
        ghost var snap, cut := SyncHistory(limit, row);
        swept := Some(Sweep(snap, cut, false));
      }
    }

    /** The part of `history` that holds the peer lock. `stale` is the outcome of the cooldown
        test on `_last_sync`. It replaces the window exactly when there was none, it was stale, or too
        short, and otherwise leaves it alone. */
    method Sync(limit: nat, stale: bool) returns (ghost counted: World, ghost swept: Option<Sweep>)
      requires Valid() && limit >= 1 && Wide(limit)
      modifies `gap, `issued, `live, `rows, `sync, `floor, `fed, `reading
      ensures Valid() && (reading.Idle? <==> old(reading).Idle?)
      ensures Later(old(W()), W()) && Follows(old(W()), counted)
      ensures swept.Some? <==> stale || old(sync).None? || Short(counted, limit)
      ensures if swept.Some? then SweptBy(swept.value, old(W()), W()) else sync == old(sync)
      ensures OnlyGrows() && Exact(old(W())) ==> Exact(W()) && Serves(W(), limit)
    {
      ghost var start := W();
      Interfere();
      var row := sync;
      ghost var first := W();
      Interfere();
      FollowsTrans(start, first, W());
      ghost var widened;
      row, counted, widened := Widen(limit, row);
      ghost var mid := W();
      LaterTrans(start, counted, mid);
      if widened.Some? {
        SweptSince(widened.value, start, counted, mid);
      }
      swept := Refresh(limit, stale, row, widened);
      LaterTrans(start, mid, W());
      if stale || row.None? {
        SweptSince(swept.value, start, mid, W());
      }
    }

    /** `_history_before`, the attempt to serve the page from the window. `seen` is the world in which
        the rows were read. */
    method ServeFromWindow(limit: nat, offset: int)
      returns (row: Option<Window>, page: seq<int>, served: bool, ghost seen: World)
      requires Valid() && limit >= 1 && offset > 0
      modifies `gap, `issued, `live, `rows, `sync, `floor, `fed, `reading
      ensures Valid() && (reading.Idle? <==> old(reading).Idle?)
      ensures Later(old(W()), seen) && Later(seen, W()) && row == sync == seen.sync == old(sync)
      ensures served <==> InWindow(seen, offset) && (row.value.low == 0 || |FromWindow(seen, limit, offset)| >= limit)
      ensures served ==> page == FromWindow(seen, limit, offset) && SkipsNothing(page, limit, offset, old(W()), W())
      ensures OnlyGrows() && Exact(old(W())) ==> Exact(W()) && ServesOn(old(W()), W())
      ensures OnlyGrows() && Exact(old(W())) && served ==> page == Newest(Below(seen.live, offset), limit)
    {
      ghost var start := W();
      Interfere();
      row, page, served := sync, [], false;
      Interfere();
      seen := W();
      LaterTrans(start, seen, seen);
      if row.Some? && row.value.low <= offset <= row.value.high {
        page := Newest(From(rows, row.value.low, offset), limit);
        served := row.value.low == 0 || |page| >= limit;
        CachedPage(seen, limit, offset);
        Interfere();
        if served {
          SkipsNothingLater(page, limit, offset, start, seen, W());
        }
      }
    }

    /** Otherwise the page comes from the client and is stored: what is on it was on the remote. */
    method FetchOlder(limit: nat, offset: int, row: Option<Window>) returns (page: seq<int>, ghost seen: World)
      requires Valid() && MayDeepen() && limit >= 1 && offset > 0 && row == sync
      modifies `gap, `issued, `live, `rows, `sync, `floor, `fed, `reading
      ensures Valid() && (reading.Idle? <==> old(reading).Idle?)
      ensures seen == old(W()) && Later(seen, W()) && page == Newest(Below(seen.live, offset), limit)
      ensures Deepened(old(sync), sync, page, limit, offset)
      ensures SkipsNothing(page, limit, offset, seen, W())
      ensures OnlyGrows() && Exact(old(W())) ==> Exact(W()) && ServesOn(old(W()), W())
    {
      page := Newest(Below(live, offset), limit);
      seen := W();
      FetchedPage(seen, limit, offset);
      OnThePage(seen, limit, offset);
      Interfere();
      ghost var asked := W();
      UpsertAll(page);
      FollowsTrans(seen, asked, W());
      if OnlyGrows() && Exact(seen) {
        SameWindowServes(seen, W());
      }
      Deepen(page, limit, offset, row.Some? && row.value.low <= offset <= row.value.high, seen);
      SkipsNothingLater(page, limit, offset, seen, seen, W());
    }

    /** `_history_before`. `seen` is the world at the moment the page was read, from whichever
        side it came: from the rows only if they skip nothing, else from the remote. */
    method HistoryBefore(limit: nat, offset: int) returns (page: seq<int>, ghost seen: World)
      requires Valid() && MayDeepen() && limit >= 1 && offset > 0
      modifies `gap, `issued, `live, `rows, `sync, `floor, `fed, `reading
      ensures Valid() && (reading.Idle? <==> old(reading).Idle?)
      ensures Later(old(W()), seen) && Later(seen, W())
      ensures SkipsNothing(page, limit, offset, old(W()), W())
      ensures || (page == Newest(Below(seen.live, offset), limit) && Deepened(old(sync), sync, page, limit, offset))
              || (InWindow(seen, offset) && page == FromWindow(seen, limit, offset) && sync == old(sync))
      ensures OnlyGrows() && Exact(old(W())) ==>
                && Exact(W()) && page == Newest(Below(seen.live, offset), limit)
                && ServesOn(old(W()), W())
    {
      ghost var start := W();
      var row, cached, served, read := ServeFromWindow(limit, offset);
      if served {
        return cached, read;
      }
      LaterTrans(start, read, W());
      page, seen := FetchOlder(limit, offset, row);
      SkipsNothingFrom(page, limit, offset, start, seen, W());
    }

    /** The end of `_history_before`: a page fetched below an offset inside the window lowers its edge. */
    method Deepen(page: seq<int>, limit: nat, offset: int, inWindow: bool, ghost seen: World)
      requires Valid() && limit >= 1 && offset > 0
      requires Ok(seen) && Follows(seen, W()) && Stored(page, W()) && SkipsNothing(page, limit, offset, seen, seen)
      requires inWindow <==> sync.Some? && sync.value.low <= offset <= sync.value.high
      requires MayDeepen()
      modifies `gap, `issued, `live, `rows, `sync, `floor, `fed, `reading
      ensures Valid() && (reading.Idle? <==> old(reading).Idle?)
      ensures Later(seen, W()) && Deepened(old(sync), sync, page, limit, offset)
      ensures OnlyGrows() && Exact(old(W())) ==> Exact(W()) && ServesOn(old(W()), W())
    {
      if inWindow {
        var newLow := if |page| < limit then 0 else page[0];
        if newLow < sync.value.low {
          ExtendKeeps(page, limit, offset, seen, W());
          ghost var before := W();
          Lower(newLow);
          LaterTrans(seen, before, W());
        }
      }
    }

    /** `_set_sync_row` with a lower edge, and the await after it. */
    method Lower(newLow: int)
      requires Valid() && MayDeepen() && sync.Some? && 0 <= newLow < sync.value.low
      requires Ok(W().(sync := Some(Window(newLow, sync.value.high))))
      modifies `gap, `issued, `live, `rows, `sync, `floor, `fed, `reading
      ensures Valid() && Later(old(W()), W()) && (reading.Idle? <==> old(reading).Idle?)
      ensures sync == Some(Window(newLow, old(sync).value.high))
      ensures OnlyGrows() && Exact(old(W())) ==> Exact(W()) && ServesOn(old(W()), W())
    {
      ghost var before, row := W(), Window(newLow, sync.value.high);
      ghost var done := W().(sync := Some(row));
      LowerAttended(row);
      DeeperWindowServes(before, newLow);
      SetSyncRow(Window(newLow, sync.value.high), floor, done);
      LaterTrans(before, done, W());
    }

    ghost method LowerAttended(row: Window)
      requires Valid() && MayDeepen() && sync.Some? && 0 <= row.low < sync.value.low && row.high == sync.value.high
      requires Ok(W().(sync := Some(row)))
      ensures var done := W().(sync := Some(row));
              Attended(watch, reading, done) && (sweep.Some? ==> Tidy(sweep.value, reading, done))
    {
      var done := W().(sync := Some(row));
      DeeperWindowServes(W(), row.low);
      StillTop(watch.base, W(), done);
      NewRowAttended(watch, reading, W(), row, floor);
      if sweep.Some? {
        NewRowTidy(sweep.value, reading, W(), row, floor);
      }
    }

    /** The first read of `_load_window`, if it is still to be made, and the await after it. */
    method ReadRow()
      requires Valid() && !reading.Idle?
      modifies `gap, `issued, `live, `rows, `sync, `floor, `fed, `reading
      ensures Valid() && (reading.BeforeRows? || reading.Loaded?) && Follows(old(W()), W())
      ensures OnlyGrows() && Exact(old(W())) ==> Exact(W())
    {
      if reading.BeforeRow? {
        ReadAttended(watch, reading, W());
        reading := BeforeRows(World(issued, live, rows, sync, floor, fed));
        Interfere();
      }
    }

    /** The second one. */
    method ReadRows()
      requires Valid() && (reading.BeforeRows? || reading.Loaded?)
      modifies `gap, `issued, `live, `rows, `sync, `floor, `fed, `reading
      ensures Valid() && reading.Loaded? && Follows(old(W()), W())
      ensures OnlyGrows() && Exact(old(W())) ==> Exact(W())
    {
      if reading.BeforeRows? {
        ReadAttended(watch, reading, W());
        reading := Loaded(reading.at, World(issued, live, rows, sync, floor, fed));
        Interfere();
      }
    }

    /** `_load_window`, as far as it is not done yet: two reads, both without the lock. */
    method LoadWindow()
      requires Valid() && !reading.Idle?
      modifies `gap, `issued, `live, `rows, `sync, `floor, `fed, `reading
      ensures Valid() && reading.Loaded? && Follows(old(W()), W())
      ensures OnlyGrows() && Exact(old(W())) ==> Exact(W())
    {
      ghost var start := W();
      Interfere();
      ghost var mid := W();
      ReadRow();
      FollowsTrans(start, mid, W());
      ghost var late := W();
      ReadRows();
      FollowsTrans(start, late, W());
    }

    /** The part of another call that holds the peer lock. */
    method Perform(c: Call)
      requires Valid() && ValidCall(c) && (if c.Recent? then Wide(c.limit) else MayDeepen())
      modifies `gap, `issued, `live, `rows, `sync, `floor, `fed, `reading
      ensures Valid() && (reading.Idle? <==> old(reading).Idle?)
      ensures OnlyGrows() && Exact(old(W())) ==> Exact(W())
    {
      match c {
        case Recent(limit, stale) => var _, _ := Sync(limit, stale);
        case Older(limit, offset) => var _, _ := HistoryBefore(limit, offset);
      }
    }

    /** `history`, newest page. The lock is given back before the window is loaded, so other calls on
        the peer may run meanwhile: `between` lists them, and either read may fall between any two of
        their statements. `at` is the world in which the sync row was read, `seen` that of the rows.
        `swept` is the replacement of the window the call made itself, if any: then nothing on the page
        was gone from the remote at that time, from the edge on that was pruned, unless others upserted
        it since. */
    method History(limit: nat, stale: bool, between: seq<Call>)
      returns (page: seq<int>, ghost at: World, ghost seen: World, ghost counted: World, ghost swept: Option<Sweep>)
      requires Valid() && limit >= 1
      requires forall i | 0 <= i < |between| :: ValidCall(between[i])
      modifies this
      ensures Valid() && reading.Idle?
      ensures Later(old(W()), at) && Later(at, seen) && Later(seen, W()) && Ok(seen)
      ensures at.sync.Some? && Claim(at.sync, seen)
      ensures page == Newest(Between(seen.rows, at.sync.value.low, at.sync.value.high), limit)
      ensures stale || old(sync).None? ==> ReachesTopOf(old(W()), at)
      ensures Follows(old(W()), counted) && (swept.Some? <==> stale || old(sync).None? || Short(counted, limit))
      ensures swept.Some? ==>
                && Later(old(W()), swept.value.snap)
                && forall x | x in page && at.floor <= x :: Fresh(swept.value, seen, x)
      ensures swept.Some? && NoneOlder(between) ==> forall x | x in page :: Fresh(swept.value, seen, x)
      ensures OnlyGrows() && Exact(old(W())) ==> Exact(W())
      ensures OnlyGrows() && Exact(old(W())) && NoneNarrower(between, limit) ==>
                page == Newest(Upto(seen.live, at.sync.value.high), limit)
    {
      ghost var start := W();
      counted, swept := Begin(limit, stale, between);
      OtherCalls(limit, between);
      page, at, seen := Load(limit);
      EndReading();
    }

    /** The reader is done. */
    method EndReading()
      requires Valid()
      modifies `reading, `watch, `sweep
      ensures Valid() && reading.Idle?
    {
      reading, sweep := Idle, None;
      watch := Watch(W(), 0, false, false);
    }

    /** The locked part of `history`; afterwards its two reads are to be made. */
    method Begin(limit: nat, stale: bool, ghost between: seq<Call>)
      returns (ghost counted: World, ghost swept: Option<Sweep>)
      requires Valid() && limit >= 1
      modifies this
      ensures Valid() && reading.BeforeRow? && sweep == swept
      ensures watch == Watch(old(W()), limit, stale || old(sync).None?,
                             OnlyGrows() && Exact(old(W())) && NoneNarrower(between, limit))
      ensures Follows(old(W()), counted) && (swept.Some? <==> stale || old(sync).None? || Short(counted, limit))
      ensures swept.Some? ==> Later(old(W()), swept.value.snap) && swept.value.level == NoneOlder(between)
      ensures OnlyGrows() && Exact(old(W())) ==> Exact(W())
    {
      ghost var start := W();
      reading, sweep := Idle, None;
      watch := Watch(start, 0, false, false);
      counted, swept := Sync(limit, stale);
      ghost var promise := Watch(start, limit, stale || start.sync.None?,
                                 OnlyGrows() && Exact(start) && NoneNarrower(between, limit));
      AboutToRead(promise, W());
      if swept.Some? {
        swept := Some(Sweep(swept.value.snap, swept.value.mark, NoneOlder(between)));
        SweptToRead(swept.value, W());
      }
      watch, sweep, reading := promise, swept, BeforeRow;
    }

    /** The locked parts of the other calls. */
    method OtherCalls(ghost limit: nat, between: seq<Call>)
      requires Valid() && !reading.Idle? && forall i | 0 <= i < |between| :: ValidCall(between[i])
      requires (watch.grow ==> watch.need == limit && NoneNarrower(between, limit))
      requires sweep.Some? && sweep.value.level ==> NoneOlder(between)
      modifies `gap, `issued, `live, `rows, `sync, `floor, `fed, `reading
      ensures Valid() && !reading.Idle?
      ensures OnlyGrows() && Exact(old(W())) ==> Exact(W())
    {
      var i := 0;
      while i < |between|
        invariant 0 <= i <= |between|
        invariant Valid() && !reading.Idle?
        invariant OnlyGrows() && Exact(old(W())) ==> Exact(W())
      {
        assert ValidCall(between[i]);
        Perform(between[i]);
        i := i + 1;
      }
    }

    /** The page, once both reads are made, and what the reader knows of it. */
    method Load(limit: nat) returns (page: seq<int>, ghost at: World, ghost seen: World)
      requires Valid() && !reading.Idle? && watch.need == limit
      modifies `gap, `issued, `live, `rows, `sync, `floor, `fed, `reading
      ensures Valid() && at.sync.Some?
      ensures page == Newest(Between(seen.rows, at.sync.value.low, at.sync.value.high), limit)
      ensures Later(watch.base, at) && Later(at, seen) && Later(seen, W()) && Ok(seen) && Claim(at.sync, seen)
      ensures watch.top ==> ReachesTopOf(watch.base, at)
      ensures watch.grow ==> page == Newest(Upto(seen.live, at.sync.value.high), limit)
      ensures sweep.Some? ==> forall x | x in page && at.floor <= x :: Fresh(sweep.value, seen, x)
      ensures sweep.Some? && sweep.value.level ==> forall x | x in page :: Fresh(sweep.value, seen, x)
      ensures OnlyGrows() && Exact(old(W())) ==> Exact(W())
    {
      LoadWindow();
      at, seen := reading.at, reading.seen;
      var row := reading.at.sync.value;
      page := Newest(Between(reading.seen.rows, row.low, row.high), limit);
      NewestIsPage(Between(seen.rows, row.low, row.high), limit);
      assert forall x | x in page :: x in Between(seen.rows, row.low, row.high);
      if watch.grow {
        LoadedIsPage(watch, at, seen, W());
      }
    }
  }
}
