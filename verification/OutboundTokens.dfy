/** The tokens of the outbound send coordinator. */
module OutboundTokens {
  import opened Common
  import opened OrderedDicts

  // The token store of agent/outbound_coordinator.py, and the concurrent sends that claim, restore and
  // consume its tokens.

  type Token = nat
  type Task = nat
  type Text = string

  /** What `prepare` promised for a token; `sending` is the claim on it. */
  datatype Offer = Offer(dialog: int, owner: Text, source: Text, variants: seq<Text>)
  datatype Entry = Entry(offer: Offer, expiresAt: int, sending: bool)

  type Store = ODict<Token, Entry>

  // --- the token store -------------------------------------------------------------------------------

  function Expired(d: Store, now: int): set<Token> {
    set t | t in d.vals && d.vals[t].expiresAt <= now && !d.vals[t].sending
  }

  /** The tokens nobody is sending, oldest first. */
  function Idle(d: Store): seq<Token>
    requires forall t | t in d.keys :: t in d.vals
  {
    IdleAmong(d.keys, d.vals)
  }

  function IdleAmong(keys: seq<Token>, vals: map<Token, Entry>): seq<Token>
    requires forall t | t in keys :: t in vals
  {
    if keys == [] then []
    else
      assert forall t | t in keys[1..] :: t in keys;
      (if vals[keys[0]].sending then [] else [keys[0]]) + IdleAmong(keys[1..], vals)
  }

  /** The second half of `_prune`: the oldest idle tokens go until the store fits, or only claimed
      tokens are left. */
  function Shrink(d: Store, max: nat): Store
    requires d.Ok()
    decreases |d.keys|
  {
    if |d.keys| <= max || Idle(d) == [] then d
    else
      d.RemoveOk(Idle(d)[0]);
      IdleIn(d.keys, d.vals, Idle(d)[0]);
      Shrink(d.Remove(Idle(d)[0]), max)
  }

  function Pruned(d: Store, now: int, max: nat): Store
    requires d.Ok()
  {
    d.MinusOk(Expired(d, now));
    Shrink(d.Minus(Expired(d, now)), max)
  }

  function Remember(d: Store, token: Token, e: Entry, now: int, max: nat): Store
    requires d.Ok()
  {
    PruneOk(d, now, max);
    var pruned := Pruned(d, now, max);
    pruned.PutLastOk(token, e);
    Pruned(pruned.PutLast(token, e), now, max)
  }

  lemma {:induction false} IdleIn(keys: seq<Token>, vals: map<Token, Entry>, x: Token)
    requires forall t | t in keys :: t in vals
    ensures x in IdleAmong(keys, vals) <==> x in keys && !vals[x].sending
  {
    if keys != [] {
      assert keys == [keys[0]] + keys[1..];
      IdleIn(keys[1..], vals, x);
    }
  }

  /** Whatever shrinking does, it only takes idle tokens and changes no other. */
  ghost predicate Thinned(a: Store, b: Store) {
    && b.Ok()
    && (forall t | t in b.vals :: t in a.vals && b.vals[t] == a.vals[t])
    && (forall t | t in a.vals && a.vals[t].sending :: t in b.vals)
  }

  lemma {:induction false} ShrinkOk(d: Store, max: nat)
    requires d.Ok()
    ensures Thinned(d, Shrink(d, max)) && |Shrink(d, max).keys| <= |d.keys|
    decreases |d.keys|
  {
    if |d.keys| > max && Idle(d) != [] {
      var t := Idle(d)[0];
      IdleIn(d.keys, d.vals, t);
      d.RemoveOk(t);
      ShrinkOk(d.Remove(t), max);
    }
  }

  /** One idle token too many is enough to make room for one. */
  lemma ShrinkByOne(d: Store, max: nat)
    requires d.Ok() && |d.keys| == max + 1 && Idle(d) != []
    ensures Shrink(d, max) == d.Remove(Idle(d)[0]) && |Shrink(d, max).keys| == max
  {
    IdleIn(d.keys, d.vals, Idle(d)[0]);
    d.RemoveOk(Idle(d)[0]);
  }

  lemma PruneOk(d: Store, now: int, max: nat)
    requires d.Ok()
    ensures Thinned(d, Pruned(d, now, max)) && |Pruned(d, now, max).keys| <= |d.keys|
  {
    d.MinusOk(Expired(d, now));
    ShrinkOk(d.Minus(Expired(d, now)), max);
  }

  /** Adding one token to a store that fits: what the second `_prune` has to deal with. */
  lemma AddOne(d: Store, token: Token, e: Entry, now: int, max: nat)
    requires d.Ok() && |d.keys| <= max && token !in d.vals && !e.sending
    ensures var full := d.PutLast(token, e);
            var left := full.Minus(Expired(full, now));
            && full.Ok() && left.Ok()
            && (|left.keys| > max ==> token in left.vals && |left.keys| == max + 1 && Idle(left) != [])
  {
    d.PutLastOk(token, e);
    var full := d.PutLast(token, e);
    full.MinusOk(Expired(full, now));
    var left := full.Minus(Expired(full, now));
    if |left.keys| > max {
      if token in Expired(full, now) {
        full.MinusSmaller(Expired(full, now), token);
      }
      assert token in left.vals && token in left.keys;
      IdleIn(left.keys, left.vals, token);
    }
  }

  /** The bound, and the dead exit: a store that fits still fits after a new token, and it takes
      at most one eviction, of the oldest idle token. "Only claimed tokens are left" never happens. */
  lemma RememberFits(d: Store, token: Token, e: Entry, now: int, max: nat)
    requires d.Ok() && |d.keys| <= max && token !in d.vals && !e.sending
    ensures Remember(d, token, e, now, max).Ok() && |Remember(d, token, e, now, max).keys| <= max
  {
    PruneOk(d, now, max);
    var pruned := Pruned(d, now, max);
    AddOne(pruned, token, e, now, max);
    var full := pruned.PutLast(token, e);
    var left := full.Minus(Expired(full, now));
    PruneOk(full, now, max);
    if |left.keys| > max {
      ShrinkByOne(left, max);
    }
  }

  /** No claimed token is lost, none is changed, and only the new one is added. */
  lemma RememberKeeps(d: Store, token: Token, e: Entry, now: int, max: nat)
    requires d.Ok() && token !in d.vals && !e.sending
    ensures var r := Remember(d, token, e, now, max);
            && (forall t | t in r.vals :: if t == token then r.vals[t] == e else t in d.vals && r.vals[t] == d.vals[t])
            && (forall t | t in d.vals && d.vals[t].sending :: t in r.vals)
  {
    PruneOk(d, now, max);
    var pruned := Pruned(d, now, max);
    pruned.PutLastOk(token, e);
    PruneOk(pruned.PutLast(token, e), now, max);
  }

  lemma {:induction false} IdleAppend(keys: seq<Token>, vals: map<Token, Entry>, t: Token, e: Entry)
    requires t !in keys && !e.sending && forall k | k in keys :: k in vals
    ensures forall k | k in keys + [t] :: k in vals[t := e]
    ensures IdleAmong(keys + [t], vals[t := e]) == IdleAmong(keys, vals) + [t]
  {
    if keys != [] {
      assert forall k | k in keys[1..] :: k in keys;
      IdleAppend(keys[1..], vals, t, e);
      assert (keys + [t])[1..] == keys[1..] + [t];
      assert keys[0] in keys;
    } else {
      assert keys + [t] == [t];
    }
  }

  /** A new token can be the one evicted. It survives exactly when it has a lifetime at all and
      the store, once pruned, has room or an older idle token. */
  lemma FreshTokenSurvivesIff(d: Store, token: Token, e: Entry, now: int, max: nat)
    requires d.Ok() && |d.keys| <= max && token !in d.vals && !e.sending
    ensures Pruned(d, now, max).Ok()
    ensures token in Remember(d, token, e, now, max).vals
            <==> now < e.expiresAt && (|Pruned(d, now, max).keys| < max || Idle(Pruned(d, now, max)) != [])
  {
    var pruned := Pruned(d, now, max);
    PruneOk(d, now, max);
    PrunedIsUnexpired(d, now, max);
    AddOne(pruned, token, e, now, max);
    var full := pruned.PutLast(token, e);
    var left := full.Minus(Expired(full, now));
    if now < e.expiresAt {
      assert Expired(full, now) == {};
      KeysOutsideNothing(full.keys, {});
      assert left == full;
      pruned.PutLastOk(token, e);
      WithoutAbsent(pruned.keys, token);
      IdleAppend(pruned.keys, pruned.vals, token, e);
      if |full.keys| > max {
        ShrinkByOne(full, max);
        if Idle(pruned) != [] {
          IdleIn(pruned.keys, pruned.vals, Idle(pruned)[0]);
        }
      }
    } else {
      PruneOk(full, now, max);
      ShrinkOk(left, max);
    }
  }

  lemma PrunedIsUnexpired(d: Store, now: int, max: nat)
    requires d.Ok()
    ensures Expired(Pruned(d, now, max), now) == {}
  {
    d.MinusOk(Expired(d, now));
    ShrinkOk(d.Minus(Expired(d, now)), max);
  }

  /** The tokens that time has not taken: being sent, or before their end. */
  ghost function Unexpired(d: Store, now: int): set<Token> {
    set t | t in d.vals && (d.vals[t].sending || now < d.vals[t].expiresAt)
  }

  lemma LeftIsUnexpired(d: Store, now: int)
    requires d.Ok()
    ensures var left := d.Minus(Expired(d, now));
            && left.Ok() && left.vals.Keys == Unexpired(d, now) && |left.keys| == |Unexpired(d, now)|
            && (forall t | t in left.vals :: left.vals[t] == d.vals[t])
  {
    d.MinusOk(Expired(d, now));
    var left := d.Minus(Expired(d, now));
    assert left.vals.Keys == Unexpired(d, now);
    KeySetSize(left.keys);
    assert KeySet(left.keys) == left.vals.Keys;
  }

  ghost function KeySet(keys: seq<Token>): set<Token> {
    set k | k in keys
  }

  lemma {:induction false} KeySetSize(keys: seq<Token>)
    requires Distinct(keys)
    ensures |KeySet(keys)| == |keys|
  {
    if keys != [] {
      var first, rest := keys[0], keys[1..];
      KeySetSize(rest);
      assert keys == [first] + rest && first !in KeySet(rest);
      assert KeySet(keys) == {first} + KeySet(rest);
    }
  }

  ghost predicate Before(keys: seq<Token>, a: Token, b: Token) {
    exists i, j :: 0 <= i < j < |keys| && keys[i] == a && keys[j] == b
  }

  /** Nobody is sending the token, it is before its end, and no older one is like that. */
  ghost predicate OldestUnclaimed(d: Store, now: int, t: Token) {
    && t in d.vals && !d.vals[t].sending && now < d.vals[t].expiresAt
    && forall k | k in d.vals && !d.vals[k].sending && now < d.vals[k].expiresAt :: !Before(d.keys, k, t)
  }

  lemma BeforeFirst(keys: seq<Token>, a: Token, b: Token)
    requires keys != []
    ensures Before(keys, a, b) <==> (keys[0] == a && b in keys[1..]) || Before(keys[1..], a, b)
  {
    var rest := keys[1..];
    if keys[0] == a && b in rest {
      var j :| 0 <= j < |rest| && rest[j] == b;
      assert keys[j + 1] == b;
    }
    if Before(rest, a, b) {
      var i, j :| 0 <= i < j < |rest| && rest[i] == a && rest[j] == b;
      assert keys[i + 1] == a && keys[j + 1] == b;
    }
    if Before(keys, a, b) {
      var i, j :| 0 <= i < j < |keys| && keys[i] == a && keys[j] == b;
      assert rest[j - 1] == b && (i > 0 ==> rest[i - 1] == a);
    }
  }

  /** Taking keys out changes no order. */
  lemma {:induction false} BeforeOutside(keys: seq<Token>, doomed: set<Token>, a: Token, b: Token)
    ensures Before(KeysOutside(keys, doomed), a, b) <==> Before(keys, a, b) && a !in doomed && b !in doomed
  {
    if keys != [] {
      var rest := KeysOutside(keys[1..], doomed);
      BeforeOutside(keys[1..], doomed, a, b);
      BeforeFirst(keys, a, b);
      KeysOutsideIn(keys[1..], doomed, b);
      if keys[0] !in doomed {
        assert ([keys[0]] + rest)[1..] == rest;
        BeforeFirst([keys[0]] + rest, a, b);
      } else {
        assert [] + rest == rest;
      }
    }
  }

  lemma {:induction false} IdleHead(keys: seq<Token>, vals: map<Token, Entry>, t: Token)
    requires Distinct(keys) && forall k | k in keys :: k in vals
    ensures var idle := IdleAmong(keys, vals);
            idle != [] && idle[0] == t
            <==> t in keys && !vals[t].sending && forall k | k in keys && !vals[k].sending :: !Before(keys, k, t)
  {
    if keys != [] {
      var first, rest := keys[0], keys[1..];
      assert keys == [first] + rest && first !in rest;
      IdleHead(rest, vals, t);
      forall k
        ensures Before(keys, k, t) <==> (first == k && t in rest) || Before(rest, k, t)
      {
        BeforeFirst(keys, k, t);
      }
      if vals[first].sending {
        OldestLater(first, rest, vals, t);
      } else {
        assert first == t ==> forall k :: !Before(rest, k, t);
      }
    }
  }

  lemma OldestLater(first: Token, rest: seq<Token>, vals: map<Token, Entry>, t: Token)
    requires (forall k | k in [first] + rest :: k in vals) && vals[first].sending && first !in rest
    requires forall k :: Before([first] + rest, k, t) <==> (first == k && t in rest) || Before(rest, k, t)
    ensures (t in [first] + rest && !vals[t].sending
             && forall k | k in [first] + rest && !vals[k].sending :: !Before([first] + rest, k, t))
            <==> (t in rest && !vals[t].sending && forall k | k in rest && !vals[k].sending :: !Before(rest, k, t))
  {
  }

  /** What time leaves, in a store that fits, is what the first `_prune` leaves. */
  lemma PrunedByTime(d: Store, now: int, max: nat)
    requires d.Ok() && |d.keys| <= max
    ensures Pruned(d, now, max) == d.Minus(Expired(d, now))
    ensures var left := Pruned(d, now, max);
            && left.Ok() && |left.keys| == |Unexpired(d, now)| <= max
            && (forall t :: t in left.vals <==> t in Unexpired(d, now))
            && (forall t | t in left.vals :: left.vals[t] == d.vals[t])
  {
    d.MinusOk(Expired(d, now));
    LeftIsUnexpired(d, now);
  }

  /** What adding does to a store that fits: what time leaves, and the new token, less the oldest idle one
      if they are too many; a token without a lifetime is not added. */
  lemma RememberIs(d: Store, token: Token, e: Entry, now: int, max: nat)
    requires d.Ok() && |d.keys| <= max && token !in d.vals && !e.sending
    ensures Pruned(d, now, max).Ok()
    ensures var left, r := Pruned(d, now, max), Remember(d, token, e, now, max);
            if e.expiresAt <= now then r.vals == left.vals
            else if |left.keys| < max then r.vals == left.vals[token := e]
            else r.vals == left.vals[token := e] - {(Idle(left) + [token])[0]}
  {
    var left := Pruned(d, now, max);
    PrunedByTime(d, now, max);
    PrunedIsUnexpired(d, now, max);
    if now < e.expiresAt {
      Added(left, token, e, now, max);
    } else {
      NotAdded(left, token, e, now, max);
    }
  }

  lemma Added(left: Store, token: Token, e: Entry, now: int, max: nat)
    requires left.Ok() && |left.keys| <= max && token !in left.vals && !e.sending && now < e.expiresAt
    requires Expired(left, now) == {}
    ensures left.PutLast(token, e).Ok()
    ensures var r := Pruned(left.PutLast(token, e), now, max);
            r.vals == if |left.keys| < max then left.vals[token := e]
                      else left.vals[token := e] - {(Idle(left) + [token])[0]}
  {
    var full := left.PutLast(token, e);
    left.PutLastOk(token, e);
    assert Expired(full, now) == {};
    full.MinusNothing();
    WithoutAbsent(left.keys, token);
    IdleAppend(left.keys, left.vals, token, e);
    if |left.keys| >= max {
      ShrinkByOne(full, max);
    }
  }

  lemma NotAdded(left: Store, token: Token, e: Entry, now: int, max: nat)
    requires left.Ok() && |left.keys| <= max && token !in left.vals && !e.sending && e.expiresAt <= now
    requires Expired(left, now) == {}
    ensures left.PutLast(token, e).Ok() && Pruned(left.PutLast(token, e), now, max).vals == left.vals
  {
    var full := left.PutLast(token, e);
    left.PutLastOk(token, e);
    assert Expired(full, now) == {token};
    full.MinusOk({token});
    full.MinusSmaller({token}, token);
    assert full.vals - {token} == left.vals;
  }

  /** Which old token leaves when one is added: one nobody is sending, and either its time is over, or the
      new token has a lifetime, the tokens that time leaves already are as many as there is room for, and
      it is the oldest unclaimed of them. */
  lemma OldTokenLeavesIff(d: Store, token: Token, e: Entry, now: int, max: nat, t: Token)
    requires d.Ok() && |d.keys| <= max && token !in d.vals && !e.sending && t in d.vals
    ensures t !in Remember(d, token, e, now, max).vals
            <==> !d.vals[t].sending
                 && (d.vals[t].expiresAt <= now
                     || (now < e.expiresAt && |Unexpired(d, now)| == max && OldestUnclaimed(d, now, t)))
  {
    var left := Pruned(d, now, max);
    PrunedByTime(d, now, max);
    RememberIs(d, token, e, now, max);
    OldestStays(d, now, max, t);
    FirstOfTwo(Idle(left), token, t);
  }

  lemma FirstOfTwo(idle: seq<Token>, token: Token, t: Token)
    requires t != token
    ensures (idle + [token])[0] == t <==> idle != [] && idle[0] == t
  {
  }

  lemma OldestStays(d: Store, now: int, max: nat, t: Token)
    requires d.Ok() && |d.keys| <= max && t in d.vals
    ensures Pruned(d, now, max).Ok()
    ensures var idle := Idle(Pruned(d, now, max)); idle != [] && idle[0] == t <==> OldestUnclaimed(d, now, t)
  {
    var left := Pruned(d, now, max);
    PrunedByTime(d, now, max);
    IdleHead(left.keys, left.vals, t);
    forall k
      ensures Before(left.keys, k, t) <==> Before(d.keys, k, t) && k !in Expired(d, now) && t !in Expired(d, now)
    {
      BeforeOutside(d.keys, Expired(d, now), k, t);
    }
  }

  /** And the new token stays exactly if it has a lifetime, and there is room for it beside those that time
      leaves, or one of them is unclaimed. */
  lemma NewTokenStaysIff(d: Store, token: Token, e: Entry, now: int, max: nat)
    requires d.Ok() && |d.keys| <= max && token !in d.vals && !e.sending
    ensures token in Remember(d, token, e, now, max).vals
            <==> now < e.expiresAt
                 && (|Unexpired(d, now)| < max
                     || exists t | t in d.vals :: !d.vals[t].sending && now < d.vals[t].expiresAt)
  {
    var left := Pruned(d, now, max);
    PrunedByTime(d, now, max);
    FreshTokenSurvivesIff(d, token, e, now, max);
    if Idle(left) != [] {
      IdleIn(left.keys, left.vals, Idle(left)[0]);
      assert Idle(left)[0] in left.vals;
    }
    forall t | t in left.vals && !left.vals[t].sending
      ensures Idle(left) != []
    {
      IdleIn(left.keys, left.vals, t);
    }
    assert forall t | t in d.vals && !d.vals[t].sending && now < d.vals[t].expiresAt :: t in left.vals;
  }

  // --- claiming, restoring, consuming -----------------------------------------------------------------

  datatype Rejection = Missing | Overdue | Busy | WrongDialog | WrongOwner | NotAVariant

  /** The checks of `_mark_sending`, in its order; None lets the send go ahead. */
  function Refuse(d: Store, token: Token, dialog: int, owner: Text, text: Text, now: int): Option<Rejection> {
    if token !in d.vals then Some(Missing)
    else
      var e := d.vals[token];
      if e.expiresAt <= now then Some(Overdue)
      else if e.sending then Some(Busy)
      else if e.offer.dialog != dialog then Some(WrongDialog)
      else if e.offer.owner != owner then Some(WrongOwner)
      else if text !in e.offer.variants then Some(NotAVariant)
      else None
  }

  /** `_mark_sending` leaves the token claimed, or drops it when it is overdue, claimed or not. */
  function Mark(d: Store, token: Token, dialog: int, owner: Text, text: Text, now: int): Store {
    match Refuse(d, token, dialog, owner, text, now)
    case None => if token in d.vals then d.Update(token, d.vals[token].(sending := true)) else d
    case Some(Overdue) => d.Remove(token)
    case Some(_) => d
  }

  function Restore(d: Store, token: Token): Store {
    if token in d.vals then d.Update(token, d.vals[token].(sending := false)) else d
  }

  // --- runs ------------------------------------------------------------------------------------------------

  datatype Phase = Sending | Sent | Failed

  /** One `send_variant` past its claim. */
  datatype Flight = Flight(token: Token, dialog: int, owner: Text, text: Text, phase: Phase)

  /** `minted` remembers what every token ever handed out was for, `log` the sends that went
      through. */
  datatype State = State(
    tokens: Store,
    flights: map<Task, Flight>,
    minted: map<Token, Offer>,
    log: seq<Flight>,
    clock: int)

  datatype Step =
    | Prepare(token: Token, offer: Offer)
    | Submit(task: Task, token: Token, dialog: int, owner: Text, text: Text)
    | SendReturns(task: Task)
    | SendRaises(task: Task)
    | Settle(task: Task)
    | Abandon(task: Task)
    | Tick(clock: int)

  datatype Config = Config(ttl: int, max: nat)

  function Init(): State {
    State(ODict([], map[]), map[], map[], [], 0)
  }

  function Minted(cfg: Config, s: State, offer: Offer): (e: Entry)
    ensures !e.sending && e.offer == offer
  {
    Entry(offer, s.clock + cfg.ttl, false)
  }

  /** `_remember_token`; `secrets.token_urlsafe` never repeats a token. */
  function DoPrepare(cfg: Config, s: State, token: Token, offer: Offer): State
    requires s.tokens.Ok()
  {
    if token in s.minted then s
    else State(Remember(s.tokens, token, Minted(cfg, s, offer), s.clock, cfg.max),
               s.flights, s.minted[token := offer], s.log, s.clock)
  }

  function DoSubmit(s: State, task: Task, token: Token, dialog: int, owner: Text, text: Text): State {
    if task in s.flights then s
    else
      var tokens := Mark(s.tokens, token, dialog, owner, text, s.clock);
      if Refuse(s.tokens, token, dialog, owner, text, s.clock).Some?
      then State(tokens, s.flights, s.minted, s.log, s.clock)
      else State(tokens, s.flights[task := Flight(token, dialog, owner, text, Sending)], s.minted, s.log, s.clock)
  }

  function DoSendReturns(s: State, task: Task): State {
    if task !in s.flights || !s.flights[task].phase.Sending? then s
    else
      var f := s.flights[task].(phase := Sent);
      State(s.tokens, s.flights[task := f], s.minted, s.log + [f], s.clock)
  }

  function DoSendRaises(s: State, task: Task): State {
    if task !in s.flights || !s.flights[task].phase.Sending? then s
    else State(s.tokens, s.flights[task := s.flights[task].(phase := Failed)], s.minted, s.log, s.clock)
  }

  /** `_consume_token` after a send, `_restore_token` after a failure: they wait for the store's
      lock, so they are steps of their own. */
  function DoSettle(s: State, task: Task): State {
    if task !in s.flights || s.flights[task].phase.Sending? then s
    else
      var f := s.flights[task];
      State(if f.phase.Sent? then s.tokens.Remove(f.token) else Restore(s.tokens, f.token),
            s.flights - {task}, s.minted, s.log, s.clock)
  }

  /** Cancelled while waiting for that lock: the token stays claimed. */
  function DoAbandon(s: State, task: Task): State {
    if task !in s.flights || s.flights[task].phase.Sending? then s
    else State(s.tokens, s.flights - {task}, s.minted, s.log, s.clock)
  }

  function Do(cfg: Config, s: State, a: Step): State
    requires s.tokens.Ok()
  {
    match a
    case Prepare(token, offer) => DoPrepare(cfg, s, token, offer)
    case Submit(task, token, dialog, owner, text) => DoSubmit(s, task, token, dialog, owner, text)
    case SendReturns(task) => DoSendReturns(s, task)
    case SendRaises(task) => DoSendRaises(s, task)
    case Settle(task) => DoSettle(s, task)
    case Abandon(task) => DoAbandon(s, task)
    case Tick(clock) => State(s.tokens, s.flights, s.minted, s.log, clock)
  }

  // --- what every run keeps ------------------------------------------------------------------------------

  /** A send is only ever made for its own token's dialog and owner, with one of its variants. */
  ghost predicate Honours(f: Flight, minted: map<Token, Offer>) {
    && f.token in minted
    && f.dialog == minted[f.token].dialog
    && f.owner == minted[f.token].owner
    && f.text in minted[f.token].variants
  }

  ghost predicate Was(log: seq<Flight>, token: Token) {
    exists i :: 0 <= i < |log| && log[i].token == token
  }

  ghost predicate OneFlightPerToken(flights: map<Task, Flight>) {
    forall t, u | t in flights && u in flights && flights[t].token == flights[u].token :: t == u
  }

  ghost predicate AtMostOnce(log: seq<Flight>) {
    forall i, j | 0 <= i < j < |log| :: log[i].token != log[j].token
  }

  ghost predicate FlightsOk(flights: map<Task, Flight>, minted: map<Token, Offer>, log: seq<Flight>) {
    && OneFlightPerToken(flights) && AtMostOnce(log)
    && (forall t | t in flights :: Honours(flights[t], minted))
    && (forall i | 0 <= i < |log| :: Honours(log[i], minted))
    && (forall t | t in flights :: flights[t].phase.Sent? <==> Was(log, flights[t].token))
  }

  /** A token that can be claimed has no send in flight and none behind it. */
  ghost predicate TokensOk(vals: map<Token, Entry>, flights: map<Task, Flight>, minted: map<Token, Offer>,
                           log: seq<Flight>) {
    && (forall t | t in vals :: t in minted && vals[t].offer == minted[t])
    && (forall t | t in vals && !vals[t].sending :: !Was(log, t))
    && (forall t, u | t in vals && !vals[t].sending && u in flights :: flights[u].token != t)
  }

  ghost predicate Inv(cfg: Config, s: State) {
    && s.tokens.Ok() && |s.tokens.keys| <= cfg.max
    && FlightsOk(s.flights, s.minted, s.log)
    && TokensOk(s.tokens.vals, s.flights, s.minted, s.log)
  }

  lemma NewTokenOk(vals: map<Token, Entry>, vals': map<Token, Entry>, flights: map<Task, Flight>,
                   minted: map<Token, Offer>, log: seq<Flight>, token: Token, e: Entry)
    requires TokensOk(vals, flights, minted, log) && FlightsOk(flights, minted, log) && token !in minted
    requires forall t | t in vals' :: if t == token then vals'[t] == e else t in vals && vals'[t] == vals[t]
    ensures TokensOk(vals', flights, minted[token := e.offer], log) && FlightsOk(flights, minted[token := e.offer], log)
  {
    assert !Was(log, token);
  }

  lemma PrepareKeeps(cfg: Config, s: State, token: Token, offer: Offer)
    requires Inv(cfg, s)
    ensures Inv(cfg, DoPrepare(cfg, s, token, offer))
  {
    if token !in s.minted {
      var e := Minted(cfg, s, offer);
      RememberFits(s.tokens, token, e, s.clock, cfg.max);
      RememberKeeps(s.tokens, token, e, s.clock, cfg.max);
      NewTokenOk(s.tokens.vals, Remember(s.tokens, token, e, s.clock, cfg.max).vals, s.flights, s.minted, s.log,
                 token, e);
    }
  }

  lemma ClaimOk(vals: map<Token, Entry>, flights: map<Task, Flight>, minted: map<Token, Offer>, log: seq<Flight>,
                task: Task, f: Flight)
    requires TokensOk(vals, flights, minted, log) && FlightsOk(flights, minted, log) && task !in flights
    requires f.token in vals && !vals[f.token].sending && Honours(f, minted) && f.phase.Sending?
    ensures TokensOk(vals[f.token := vals[f.token].(sending := true)], flights[task := f], minted, log)
    ensures FlightsOk(flights[task := f], minted, log)
  {
  }

  lemma SubmitKeeps(cfg: Config, s: State, task: Task, token: Token, dialog: int, owner: Text, text: Text)
    requires Inv(cfg, s)
    ensures Inv(cfg, DoSubmit(s, task, token, dialog, owner, text))
  {
    if task !in s.flights {
      if Refuse(s.tokens, token, dialog, owner, text, s.clock) == None {
        ClaimOk(s.tokens.vals, s.flights, s.minted, s.log, task, Flight(token, dialog, owner, text, Sending));
      } else {
        s.tokens.RemoveOk(token);
      }
    }
  }

  lemma SendReturnsKeeps(cfg: Config, s: State, task: Task)
    requires Inv(cfg, s)
    ensures Inv(cfg, DoSendReturns(s, task))
  {
    if task in s.flights && s.flights[task].phase.Sending? {
      var f := s.flights[task].(phase := Sent);
      var log := s.log + [f];
      forall t
        ensures Was(log, t) <==> Was(s.log, t) || t == f.token
      {
        WasAppend(s.log, f, t);
      }
    }
  }

  lemma WasAppend(log: seq<Flight>, f: Flight, t: Token)
    ensures Was(log + [f], t) <==> Was(log, t) || t == f.token
  {
    var longer := log + [f];
    if Was(log, t) {
      var i :| 0 <= i < |log| && log[i].token == t;
      assert longer[i].token == t;
    }
    assert longer[|log|] == f;
  }

  lemma SettleKeeps(cfg: Config, s: State, task: Task)
    requires Inv(cfg, s)
    ensures Inv(cfg, DoSettle(s, task))
  {
    if task in s.flights {
      s.tokens.RemoveOk(s.flights[task].token);
    }
  }

  lemma {:induction false} RunKeeps(cfg: Config, s: State, steps: seq<Step>)
    requires Inv(cfg, s)
    ensures Inv(cfg, Run(cfg, s, steps))
    decreases |steps|
  {
    if steps != [] {
      DoKeeps(cfg, s, steps[0]);
      RunKeeps(cfg, Do(cfg, s, steps[0]), steps[1..]);
    }
  }

  lemma DoKeeps(cfg: Config, s: State, a: Step)
    requires Inv(cfg, s)
    ensures Inv(cfg, Do(cfg, s, a))
  {
    match a
    case Prepare(token, offer) => PrepareKeeps(cfg, s, token, offer);
    case Submit(task, token, dialog, owner, text) => SubmitKeeps(cfg, s, task, token, dialog, owner, text);
    case SendReturns(task) => SendReturnsKeeps(cfg, s, task);
    case SendRaises(task) =>
    case Settle(task) => SettleKeeps(cfg, s, task);
    case Abandon(task) =>
    case Tick(clock) =>
  }

  function Run(cfg: Config, s: State, steps: seq<Step>): State
    requires s.tokens.Ok()
    decreases |steps|
  {
    if steps == [] then s
    else
      DoOk(cfg, s, steps[0]);
      Run(cfg, Do(cfg, s, steps[0]), steps[1..])
  }

  lemma DoOk(cfg: Config, s: State, a: Step)
    requires s.tokens.Ok()
    ensures Do(cfg, s, a).tokens.Ok()
  {
    match a
    case Prepare(token, offer) =>
      if token !in s.minted {
        RememberOk(s.tokens, token, Minted(cfg, s, offer), s.clock, cfg.max);
      }
    case Submit(task, token, dialog, owner, text) => s.tokens.RemoveOk(token);
    case SendReturns(task) =>
    case SendRaises(task) =>
    case Settle(task) =>
      if task in s.flights {
        s.tokens.RemoveOk(s.flights[task].token);
      }
    case Abandon(task) =>
    case Tick(clock) =>
  }

  lemma RememberOk(d: Store, token: Token, e: Entry, now: int, max: nat)
    requires d.Ok()
    ensures Remember(d, token, e, now, max).Ok()
  {
    PruneOk(d, now, max);
    var pruned := Pruned(d, now, max);
    pruned.PutLastOk(token, e);
    PruneOk(pruned.PutLast(token, e), now, max);
  }

  /** Over any run: no token has two sends in flight, none goes through twice, and every send that
      went through was for its own dialog, owner and one of its variants. */
  lemma SendsAreAtMostOnce(cfg: Config, steps: seq<Step>)
    ensures Init().tokens.Ok()
    ensures var s := Run(cfg, Init(), steps);
            && OneFlightPerToken(s.flights) && AtMostOnce(s.log)
            && (forall t | t in s.flights && s.flights[t].phase.Sending? :: !Was(s.log, s.flights[t].token))
            && (forall i | 0 <= i < |s.log| :: Honours(s.log[i], s.minted))
            && |s.tokens.keys| <= cfg.max
  {
    RunKeeps(cfg, Init(), steps);
  }

  /** After a failed send, once the token is restored, the same choice can be sent again for as
      long as the token lives. */
  lemma FailureIsRetryable(cfg: Config, s: State, task: Task)
    requires Inv(cfg, s) && task in s.flights && s.flights[task].phase.Failed?
    ensures var f := s.flights[task];
            f.token in s.tokens.vals && s.clock < s.tokens.vals[f.token].expiresAt ==>
              Refuse(DoSettle(s, task).tokens, f.token, f.dialog, f.owner, f.text, s.clock) == None
  {
    assert Honours(s.flights[task], s.minted);
  }

  /** A send is let through exactly for an idle, unexpired token of that dialog and owner, with one of its
      variants. Then that token alone is claimed; a refusal changes nothing but an overdue token, which goes. */
  lemma ClaimedExactlyWhen(d: Store, token: Token, dialog: int, owner: Text, text: Text, now: int)
    requires d.Ok()
    ensures var n, asked := Mark(d, token, dialog, owner, text, now), Offered(d, token);
            && (Refuse(d, token, dialog, owner, text, now) == None
                <==> asked.Some? && !asked.value.sending && now < asked.value.expiresAt
                     && asked.value.offer.dialog == dialog && asked.value.offer.owner == owner
                     && text in asked.value.offer.variants)
            && n.Ok() && (forall t | t != token :: Offered(n, t) == Offered(d, t))
            && Offered(n, token) ==
                 if Refuse(d, token, dialog, owner, text, now) == None then Some(asked.value.(sending := true))
                 else if asked.Some? && asked.value.expiresAt <= now then None
                 else asked
  {
    d.RemoveOk(token);
  }

  function Offered(d: Store, token: Token): Option<Entry> {
    if token in d.vals then Some(d.vals[token]) else None
  }

  /** A token with a send in flight, or with one that went through, is refused to everybody. */
  lemma TakenIsRefused(cfg: Config, s: State, token: Token, dialog: int, owner: Text, text: Text, now: int)
    requires Inv(cfg, s)
    requires Was(s.log, token) || exists task | task in s.flights :: s.flights[task].token == token
    ensures Refuse(s.tokens, token, dialog, owner, text, now).Some?
  {
    assert token in s.tokens.vals ==> s.tokens.vals[token].sending;
  }

  lemma {:induction false} LogGrows(cfg: Config, s: State, steps: seq<Step>)
    requires s.tokens.Ok()
    ensures s.log <= Run(cfg, s, steps).log
    decreases |steps|
  {
    if steps != [] {
      DoOk(cfg, s, steps[0]);
      assert s.log <= Do(cfg, s, steps[0]).log;
      LogGrows(cfg, Do(cfg, s, steps[0]), steps[1..]);
    }
  }

  /** And for good: once a send went through, its token is refused ever after, whatever else happens, be it
      consumed, left claimed by a cancellation, dropped, or not yet settled. */
  lemma SentIsRefusedForGood(cfg: Config, s: State, steps: seq<Step>, i: nat, dialog: int, owner: Text, text: Text,
                             now: int)
    requires Inv(cfg, s) && i < |s.log|
    ensures Refuse(Run(cfg, s, steps).tokens, s.log[i].token, dialog, owner, text, now).Some?
  {
    var n := Run(cfg, s, steps);
    RunKeeps(cfg, s, steps);
    LogGrows(cfg, s, steps);
    assert n.log[i].token == s.log[i].token;
    TakenIsRefused(cfg, n, s.log[i].token, dialog, owner, text, now);
  }

  // --- how long a token can be claimed -----------------------------------------------------------------------

  ghost predicate Held(flights: map<Task, Flight>, t: Token) {
    exists task | task in flights :: flights[task].token == t
  }

  /** Adding a token would push this one out for room. */
  ghost predicate MakesWay(cfg: Config, s: State, t: Token) {
    0 < cfg.ttl && |Unexpired(s.tokens, s.clock)| == cfg.max && OldestUnclaimed(s.tokens, s.clock, t)
  }

  /** The three ways out of the store: a new token is added when it is unclaimed and over, or makes way; it
      is asked for when it is over; a send for it that went through is settled. */
  lemma TokenLeavesIff(cfg: Config, s: State, a: Step, t: Token)
    requires Inv(cfg, s) && t in s.tokens.vals
    ensures var over := s.tokens.vals[t].expiresAt <= s.clock;
            t !in Do(cfg, s, a).tokens.vals <==>
              || (&& a.Prepare? && a.token !in s.minted && !s.tokens.vals[t].sending
                  && (over || MakesWay(cfg, s, t)))
              || (a.Submit? && a.task !in s.flights && a.token == t && over)
              || (a.Settle? && a.task in s.flights && s.flights[a.task].phase.Sent? && s.flights[a.task].token == t)
  {
    if a.Prepare? && a.token !in s.minted {
      OldTokenLeavesIff(s.tokens, a.token, Minted(cfg, s, a.offer), s.clock, cfg.max, t);
    }
  }

  /** A step that leaves the token its chance: it comes before `end`, does not push the token out for room,
      and settles no send for it that went through, nor abandons one. */
  ghost predicate Spares(cfg: Config, s: State, a: Step, t: Token, end: int) {
    && s.clock < end
    && (a.Prepare? ==> a.token in s.minted || !MakesWay(cfg, s, t))
    && (a.Settle? && a.task in s.flights && s.flights[a.task].token == t ==> !s.flights[a.task].phase.Sent?)
    && (a.Abandon? && a.task in s.flights ==> s.flights[a.task].token != t)
  }

  ghost predicate AllSpare(cfg: Config, s: State, steps: seq<Step>, t: Token, end: int)
    requires s.tokens.Ok()
    decreases |steps|
  {
    steps == [] ||
    (&& Spares(cfg, s, steps[0], t, end)
     && (DoOk(cfg, s, steps[0]); AllSpare(cfg, Do(cfg, s, steps[0]), steps[1..], t, end)))
  }

  /** The token is there as it was prepared, and can be claimed unless a send for it is under way. */
  ghost predicate Waits(s: State, t: Token, offer: Offer, end: int) {
    && t in s.tokens.vals && s.tokens.vals[t].offer == offer && s.tokens.vals[t].expiresAt == end
    && (!s.tokens.vals[t].sending || Held(s.flights, t))
  }

  /** A token handed out by `prepare`, if it is in the store at all, waits for its whole lifetime. */
  lemma PreparedWaits(cfg: Config, s: State, token: Token, offer: Offer)
    requires Inv(cfg, s) && token !in s.minted
    ensures var n := DoPrepare(cfg, s, token, offer);
            token in n.tokens.vals ==> Waits(n, token, offer, s.clock + cfg.ttl) && 0 < cfg.ttl
  {
    RememberKeeps(s.tokens, token, Minted(cfg, s, offer), s.clock, cfg.max);
    NewTokenStaysIff(s.tokens, token, Minted(cfg, s, offer), s.clock, cfg.max);
  }

  lemma StillWaits(cfg: Config, s: State, a: Step, t: Token, offer: Offer, end: int)
    requires Inv(cfg, s) && Waits(s, t, offer, end) && Spares(cfg, s, a, t, end)
    ensures Waits(Do(cfg, s, a), t, offer, end)
  {
    var n := Do(cfg, s, a);
    TokenLeavesIff(cfg, s, a, t);
    if a.Prepare? && a.token !in s.minted {
      RememberKeeps(s.tokens, a.token, Minted(cfg, s, a.offer), s.clock, cfg.max);
    }
    if s.tokens.vals[t].sending {
      var task :| task in s.flights && s.flights[task].token == t;
      assert task in n.flights ==> n.flights[task].token == t;
    }
    if n.tokens.vals[t].sending && !s.tokens.vals[t].sending {
      assert n.flights[a.task].token == t;
    }
  }

  /** Over any run a prepared token waits, with all it was prepared for, until its end, until it is pushed
      out for room, or until a send for it went through and is settled; and while no send for it is under
      way it can be claimed. */
  lemma {:induction false} ClaimableUntil(cfg: Config, s: State, steps: seq<Step>, t: Token, offer: Offer, end: int)
    requires Inv(cfg, s) && Waits(s, t, offer, end) && AllSpare(cfg, s, steps, t, end)
    ensures var n := Run(cfg, s, steps);
            && Waits(n, t, offer, end)
            && (!Held(n.flights, t) && n.clock < end ==>
                  forall text | text in offer.variants ::
                    Refuse(n.tokens, t, offer.dialog, offer.owner, text, n.clock) == None)
    decreases |steps|
  {
    if steps != [] {
      StillWaits(cfg, s, steps[0], t, offer, end);
      DoKeeps(cfg, s, steps[0]);
      ClaimableUntil(cfg, Do(cfg, s, steps[0]), steps[1..], t, offer, end);
    }
  }

  // --- the fresh token, evicted -----------------------------------------------------------------------------

  /** Where every token is being sent and the store is full, a new token does not survive its own adding. */
  lemma FullOfClaims(d: Store, token: Token, e: Entry, now: int, max: nat)
    requires d.Ok() && |d.keys| == max && token !in d.vals && !e.sending
    requires forall t | t in d.vals :: d.vals[t].sending
    ensures token !in Remember(d, token, e, now, max).vals
  {
    assert Expired(d, now) == {};
    KeysOutsideNothing(d.keys, {});
    assert d.Minus({}) == d;
    if Idle(d) != [] {
      IdleIn(d.keys, d.vals, Idle(d)[0]);
    }
    FreshTokenSurvivesIff(d, token, e, now, max);
  }

  lemma FirstPrepared(cfg: Config, offer: Offer)
    requires cfg.max == 1 && cfg.ttl > 0
    ensures Init().tokens.Ok()
    ensures var s := DoPrepare(cfg, Init(), 1, offer);
            && s.tokens.Ok() && s.flights == map[] && s.minted == map[1 := offer] && s.clock == 0
            && |s.tokens.keys| == 1 && s.tokens.vals == map[1 := Entry(offer, cfg.ttl, false)]
  {
    var d, e := Init().tokens, Minted(cfg, Init(), offer);
    RememberFits(d, 1, e, 0, 1);
    RememberKeeps(d, 1, e, 0, 1);
    FreshTokenSurvivesIff(d, 1, e, 0, 1);
    var r := Remember(d, 1, e, 0, 1);
    assert r.vals == map[1 := e];
    assert 1 in r.keys;
  }

  /** A run to that: with room for one token, the first is being sent when the second is prepared. What
      `prepare` then hands out is not in the store. */
  lemma PreparedButGone(cfg: Config, offer: Offer, text: Text) returns (one: State, two: State, three: State)
    requires cfg.max == 1 && cfg.ttl > 0 && text in offer.variants
    ensures Init().tokens.Ok() && one == DoPrepare(cfg, Init(), 1, offer)
    ensures two == DoSubmit(one, 0, 1, offer.dialog, offer.owner, text) && two.tokens.Ok()
    ensures three == DoPrepare(cfg, two, 2, offer)
    ensures 2 in three.minted && 2 !in three.tokens.vals
  {
    FirstPrepared(cfg, offer);
    one := DoPrepare(cfg, Init(), 1, offer);
    two := DoSubmit(one, 0, 1, offer.dialog, offer.owner, text);
    var claimed := Entry(offer, cfg.ttl, true);
    assert two.tokens == ODict(one.tokens.keys, map[1 := claimed]);
    three := DoPrepare(cfg, two, 2, offer);
    FullOfClaims(two.tokens, 2, Minted(cfg, two, offer), 0, 1);
  }

  // --- the object ------------------------------------------------------------------------------------------

  lemma {:induction false} IdleSkips(keys: seq<Token>, vals: map<Token, Entry>, j: nat)
    requires j <= |keys| && forall t | t in keys :: t in vals
    requires forall i | 0 <= i < j :: vals[keys[i]].sending
    ensures forall t | t in keys[j..] :: t in vals
    ensures IdleAmong(keys, vals) == IdleAmong(keys[j..], vals)
  {
    assert forall t | t in keys[j..] :: t in keys;
    if j != 0 {
      assert forall t | t in keys[1..] :: t in keys;
      assert forall i | 0 <= i < j - 1 :: keys[1..][i] == keys[i + 1];
      IdleSkips(keys[1..], vals, j - 1);
      assert keys[1..][j - 1..] == keys[j..];
    } else {
      assert keys[0..] == keys;
    }
  }

  class OutboundSendCoordinator {
    const tokenTtl: int
    const tokenMax: nat
    var tokens: Store

    constructor (tokenTtl: int, tokenMax: int)
      ensures tokens == Init().tokens && this.tokenTtl == tokenTtl
      ensures this.tokenMax >= 1 && (tokenMax >= 1 ==> this.tokenMax == tokenMax)
    {
      this.tokenTtl := tokenTtl;
      this.tokenMax := if tokenMax < 1 then 1 else tokenMax;
      tokens := ODict([], map[]);
    }

    method DropExpired(now: int)
      requires tokens.Ok()
      modifies this
      ensures tokens == old(tokens).Minus(Expired(old(tokens), now))
      ensures forall t :: t in tokens.vals <==>
                t in old(tokens).vals && (old(tokens).vals[t].sending || now < old(tokens).vals[t].expiresAt)
    {
      ghost var d := tokens;
      var keys, vals := tokens.keys, tokens.vals;
      ghost var done: set<Token> := {};
      d.MinusNothing();
      for i := 0 to |keys|
        invariant done <= Expired(d, now)
        invariant forall j | 0 <= j < i :: keys[j] in Expired(d, now) ==> keys[j] in done
        invariant tokens == d.Minus(done)
      {
        var token := keys[i];
        if vals[token].expiresAt <= now && !vals[token].sending {
          d.MinusOneMore(done, token);
          tokens := tokens.Remove(token);
          done := done + {token};
        }
      }
      assert done == Expired(d, now);
    }

    /** The inner scan of `_prune`: the position of the oldest idle token, or the length. */
    method OldestIdle() returns (j: nat)
      requires tokens.Ok()
      ensures j <= |tokens.keys|
      ensures if j < |tokens.keys| then Idle(tokens) != [] && Idle(tokens)[0] == tokens.keys[j] else Idle(tokens) == []
    {
      j := 0;
      while j < |tokens.keys| && tokens.vals[tokens.keys[j]].sending
        invariant 0 <= j <= |tokens.keys|
        invariant forall i | 0 <= i < j :: tokens.vals[tokens.keys[i]].sending
      {
        j := j + 1;
      }
      IdleSkips(tokens.keys, tokens.vals, j);
    }

    method Prune(now: int)
      requires tokens.Ok()
      modifies this
      ensures tokens == Pruned(old(tokens), now, tokenMax)
    {
      tokens.MinusOk(Expired(tokens, now));
      DropExpired(now);
      ghost var d := tokens;
      var stuck := false;
      while |tokens.keys| > tokenMax && !stuck
        invariant tokens.Ok() && Shrink(tokens, tokenMax) == Shrink(d, tokenMax)
        invariant stuck ==> Idle(tokens) == []
        decreases |tokens.keys|, !stuck
      {
        var j := OldestIdle();
        if j < |tokens.keys| {
          tokens.RemoveOk(tokens.keys[j]);
          tokens := tokens.Remove(tokens.keys[j]);
        } else {
          stuck := true;
        }
      }
    }

    method RememberToken(token: Token, offer: Offer, now: int)
      requires tokens.Ok()
      modifies this
      ensures tokens == Remember(old(tokens), token, Entry(offer, now + tokenTtl, false), now, tokenMax)
    {
      PruneOk(tokens, now, tokenMax);
      Prune(now);
      var e := Entry(offer, now + tokenTtl, false);
      tokens.PutLastOk(token, e);
      tokens := tokens.PutLast(token, e);
      Prune(now);
    }

    method MarkSending(token: Token, dialog: int, owner: Text, text: Text, now: int)
      returns (refused: Option<Rejection>)
      modifies this
      ensures refused == Refuse(old(tokens), token, dialog, owner, text, now)
      ensures tokens == Mark(old(tokens), token, dialog, owner, text, now)
    {
      if token !in tokens.vals {
        return Some(Missing);
      }
      var e := tokens.vals[token];
      if e.expiresAt <= now {
        tokens := tokens.Remove(token);
        return Some(Overdue);
      }
      if e.sending {
        return Some(Busy);
      }
      if e.offer.dialog != dialog {
        return Some(WrongDialog);
      }
      if e.offer.owner != owner {
        return Some(WrongOwner);
      }
      if text !in e.offer.variants {
        return Some(NotAVariant);
      }
      tokens := tokens.Update(token, e.(sending := true));
      return None;
    }

    method ConsumeToken(token: Token)
      modifies this
      ensures tokens == old(tokens).Remove(token)
    {
      tokens := tokens.Remove(token);
    }

    method RestoreToken(token: Token)
      modifies this
      ensures tokens == Restore(old(tokens), token)
    {
      if token in tokens.vals {
        tokens := tokens.Update(token, tokens.vals[token].(sending := false));
      }
    }
  }
}
