/** The ghostwriter's two consumers. */
module Ghostwriter {
  import opened Common
  import opened OrderedDicts

  // Of the two concurrent consumers of agent/ghostwrite.py one answers incoming messages, the other watches
  // outgoing ones and must tell the engine's own echoes from a human.

  /** An outgoing message; ids are unique within a dialog. */
  datatype Ev = Ev(dialog: int, id: int)

  /** Where the consumer of incoming messages stands. `waiting` is the list of outgoing events put off
      until the send's outcome is known, `mine` the message this send became. */
  datatype Talk =
    | Idle
    | Drafting(dialog: int)
    | Cleared(dialog: int)
    | Sending(dialog: int, mine: Option<Ev>, waiting: seq<Ev>)
    | Settling(dialog: int, mine: Option<Ev>, waiting: seq<Ev>)
  {
    function Waiting(): seq<Ev> {
      if Sending? || Settling? then waiting else []
    }

    function Mine(): Option<Ev> {
      if Sending? || Settling? then mine else None
    }

    /** The `_sending` dictionary. */
    function Dict(): map<int, seq<Ev>> {
      if Sending? then map[dialog := waiting] else map[]
    }
  }

  /** Why an own message can be taken for a human's: its echo came while a later send to the same
      dialog was in flight; its send raised or returned no id; its id left the bounded cache before
      the echo came. */
  datatype Mistake = Crossed | Orphaned | Evicted

  /** `accepted`: own messages the server took. `delivered`: outgoing events seen so far, each once.
      `treated`: events handed to the human path. The last four are history, not code. */
  datatype Core = Core(
    talk: Talk,
    own: ODict<Ev, bool>,
    accepted: set<Ev>,
    delivered: set<Ev>,
    treated: set<Ev>,
    mistaken: map<Ev, Mistake>)

  /** What the human path ought to see: messages that are not the engine's, and the mistakes. */
  ghost predicate LooksHuman(accepted: set<Ev>, mistaken: map<Ev, Mistake>, ev: Ev) {
    ev !in accepted || ev in mistaken
  }

  // --- the steps --------------------------------------------------------------------------------------

  function AtTalk(c: Core, talk: Talk): Core {
    Core(talk, c.own, c.accepted, c.delivered, c.treated, c.mistaken)
  }

  function StartSend(c: Core): Core {
    if c.talk.Cleared? then AtTalk(c, Sending(c.talk.dialog, None, [])) else c
  }

  /** The server takes the message: from now on its echo may come. */
  function Accept(c: Core, ev: Ev): Core {
    if c.talk.Sending? && c.talk.mine == None && ev.dialog == c.talk.dialog && ev !in c.accepted && ev !in c.delivered
    then Core(Sending(ev.dialog, Some(ev), c.talk.waiting), c.own, c.accepted + {ev}, c.delivered, c.treated,
              c.mistaken)
    else c
  }

  /** `_remember_own`. */
  function Remembered(own: ODict<Ev, bool>, ev: Ev, cap: nat): ODict<Ev, bool> {
    own.PutLast(ev, true).Capped(cap)
  }

  /** The ids that leave the cache before their echo has come. */
  function Forgotten(own: ODict<Ev, bool>, ev: Ev, cap: nat, delivered: set<Ev>): set<Ev> {
    own.vals.Keys + {ev} - Remembered(own, ev, cap).vals.Keys - delivered
  }

  function Mark(mistaken: map<Ev, Mistake>, evs: set<Ev>, why: Mistake): map<Ev, Mistake> {
    map e | e in mistaken.Keys + evs :: if e in evs then why else mistaken[e]
  }

  /** `send_text` returned a message whose id is readable. */
  function Return(c: Core, cap: nat): Core {
    if c.talk.Sending? && c.talk.mine.Some? then
      var ev := c.talk.mine.value;
      Core(Settling(c.talk.dialog, Some(ev), c.talk.waiting), Remembered(c.own, ev, cap), c.accepted, c.delivered,
           c.treated, Mark(c.mistaken, Forgotten(c.own, ev, cap, c.delivered), Evicted))
    else c
  }

  /** `send_text` raised, perhaps after the server took the message, or returned no id. */
  function Raise(c: Core): Core {
    if c.talk.Sending? then
      Core(Settling(c.talk.dialog, None, c.talk.waiting), c.own, c.accepted, c.delivered, c.treated,
           if c.talk.mine.Some? then Mark(c.mistaken, {c.talk.mine.value}, Orphaned) else c.mistaken)
    else c
  }

  /** The synchronous part of `on_outgoing`, for an event never seen before. */
  function Deliver(c: Core, ev: Ev): Core {
    if ev in c.delivered then c
    else if c.talk.Sending? && c.talk.dialog == ev.dialog then
      Core(Sending(c.talk.dialog, c.talk.mine, c.talk.waiting + [ev]), c.own, c.accepted, c.delivered + {ev}, c.treated,
           if ev in c.accepted && c.talk.mine != Some(ev) then Mark(c.mistaken, {ev}, Crossed) else c.mistaken)
    else if ev in c.own.vals then
      Core(c.talk, c.own.Remove(ev), c.accepted, c.delivered + {ev}, c.treated, c.mistaken)
    else
      Core(c.talk, c.own, c.accepted, c.delivered + {ev}, c.treated + {ev}, c.mistaken)
  }

  /** One turn of `_handle_deferred_outgoing`: skip the message just sent, pass on any other. */
  function Settle(c: Core): Core {
    if c.talk.Settling? && c.talk.waiting != [] then
      var ev := c.talk.waiting[0];
      Core(Settling(c.talk.dialog, c.talk.mine, c.talk.waiting[1..]), c.own, c.accepted, c.delivered,
           if c.talk.mine == Some(ev) then c.treated else c.treated + {ev}, c.mistaken)
    else c
  }

  // --- the invariant -----------------------------------------------------------------------------------

  /** Events put off: all seen, all of this dialog, and the message being sent is the only one of
      them that will be skipped: exactly the one that does not look human. */
  ghost predicate WaitingOk(talk: Talk, accepted: set<Ev>, delivered: set<Ev>, mistaken: map<Ev, Mistake>) {
    && (forall e | e in talk.Waiting() ::
          e.dialog == talk.dialog && e in delivered && (talk.mine == Some(e) <==> !LooksHuman(accepted, mistaken, e)))
    && (talk.Mine().Some? ==> talk.mine.value.dialog == talk.dialog && talk.mine.value in accepted)
    && (talk.Sending? && talk.mine.Some? ==>
          talk.mine.value !in mistaken && (talk.mine.value in delivered ==> talk.mine.value in talk.waiting))
  }

  /** An own message whose echo is still to come will be recognised: it is the one in flight, or in
      the cache. */
  ghost predicate CacheOk(talk: Talk, own: ODict<Ev, bool>, accepted: set<Ev>, delivered: set<Ev>,
                          mistaken: map<Ev, Mistake>) {
    && own.vals.Keys <= accepted && mistaken.Keys <= accepted
    && (forall e | e in accepted && e !in delivered ::
          e in mistaken || e in own.vals || (talk.Sending? && talk.mine == Some(e)))
    && (forall e | e in own.vals && e !in delivered :: e !in mistaken)
    && (talk.Sending? && talk.mine.Some? ==> talk.mine.value !in own.vals)
  }

  /** The human path has had exactly the seen events that look human, but for those still waiting. */
  ghost predicate TreatedOk(talk: Talk, accepted: set<Ev>, delivered: set<Ev>, treated: set<Ev>,
                            mistaken: map<Ev, Mistake>) {
    && (forall e | e in treated :: e in delivered && LooksHuman(accepted, mistaken, e))
    && (forall e | e in delivered && LooksHuman(accepted, mistaken, e) :: e in treated || e in talk.Waiting())
  }

  /** An event is handed over once. */
  ghost predicate OnceOk(talk: Talk, treated: set<Ev>) {
    Distinct(talk.Waiting()) && forall e | e in talk.Waiting() :: e !in treated
  }

  ghost predicate CoreOk(c: Core, cap: nat) {
    && c.own.Ok() && |c.own.keys| <= cap
    && OnceOk(c.talk, c.treated)
    && WaitingOk(c.talk, c.accepted, c.delivered, c.mistaken)
    && CacheOk(c.talk, c.own, c.accepted, c.delivered, c.mistaken)
    && TreatedOk(c.talk, c.accepted, c.delivered, c.treated, c.mistaken)
  }

  lemma StartSendKeeps(c: Core, cap: nat)
    requires CoreOk(c, cap)
    ensures CoreOk(StartSend(c), cap)
  {
  }

  lemma AcceptKeeps(c: Core, ev: Ev, cap: nat)
    requires CoreOk(c, cap)
    ensures CoreOk(Accept(c, ev), cap)
  {
  }

  lemma ReturnKeeps(c: Core, cap: nat)
    requires CoreOk(c, cap)
    ensures CoreOk(Return(c, cap), cap)
  {
    if c.talk.Sending? && c.talk.mine.Some? {
      c.own.PutCappedOk(c.talk.mine.value, true, cap);
    }
  }

  lemma RaiseKeeps(c: Core, cap: nat)
    requires CoreOk(c, cap)
    ensures CoreOk(Raise(c), cap)
  {
  }

  /** Put off during a send to its dialog. */
  lemma PutOffKeeps(c: Core, ev: Ev, cap: nat)
    requires CoreOk(c, cap) && c.talk.Sending? && c.talk.dialog == ev.dialog
    ensures CoreOk(Deliver(c, ev), cap)
  {
  }

  /** Compared with the cache of sent ids. */
  lemma ComparedKeeps(c: Core, ev: Ev, cap: nat)
    requires CoreOk(c, cap) && !(c.talk.Sending? && c.talk.dialog == ev.dialog)
    ensures CoreOk(Deliver(c, ev), cap)
  {
    if ev in c.own.vals {
      c.own.RemoveOk(ev);
    }
  }

  lemma DeliverKeeps(c: Core, ev: Ev, cap: nat)
    requires CoreOk(c, cap)
    ensures CoreOk(Deliver(c, ev), cap)
  {
    if c.talk.Sending? && c.talk.dialog == ev.dialog {
      PutOffKeeps(c, ev, cap);
    } else {
      ComparedKeeps(c, ev, cap);
    }
  }

  lemma SettleKeeps(c: Core, cap: nat)
    requires CoreOk(c, cap)
    ensures CoreOk(Settle(c), cap)
  {
    if c.talk.Settling? && c.talk.waiting != [] {
      assert c.talk.waiting == [c.talk.waiting[0]] + c.talk.waiting[1..];
    }
  }

  // --- pausing ---------------------------------------------------------------------------------------------

  datatype Row = Row(enabled: bool, pausedUntil: Option<int>)

  /** `is_active`. */
  predicate Active(rows: map<int, Row>, dialog: int, now: int) {
    && dialog in rows && rows[dialog].enabled
    && (rows[dialog].pausedUntil == None || now >= rows[dialog].pausedUntil.value)
  }

  /** An event inside `_pause_for_human_outgoing`, and the storage call it is about to make. The clock is
      read between the first and the second: `at`. */
  datatype Hand = Free | Look(ev: Ev) | Check(ev: Ev, at: int) | Write(ev: Ev, until: int)

  /** How the human path ended for an event. */
  datatype Outcome = NotEnabled | AlreadyQuiet | Paused(until: int) | StorageFailed

  /** `ear` is the outgoing consumer's hand, `mouth` that of the incoming consumer's settling loop.
      `started` counts the sends started in a dialog since its row was last written, `untouched` says the row
      has not been written since the talk was cleared. */
  datatype State = State(
    core: Core,
    ear: Hand,
    mouth: Hand,
    outcome: map<Ev, Outcome>,
    rows: map<int, Row>,
    known: set<int>,
    now: int,
    started: map<int, nat>,
    untouched: bool)

  datatype Config = Config(enforce: bool, cap: nat, pauseSec: int)

  datatype Step =
    | Begin(dialog: int)
    | GiveUp
    | Clear
    | Start
    | Taken(ev: Ev)
    | Returned
    | Raised
    | Heard(ev: Ev)
    | Next
    | EarStep(ok: bool)
    | MouthStep(ok: bool)
    | Rewrite(dialog: int, row: Row)
    | Tick(now: int)

  function WithCore(s: State, core: Core): State {
    State(core, s.ear, s.mouth, s.outcome, s.rows, s.known, s.now, s.started, s.untouched)
  }

  function Starts(started: map<int, nat>, dialog: int): nat {
    if dialog in started then started[dialog] else 0
  }

  /** The first check of `process_incoming`; the rate limit and the draft decide whether it goes on. */
  function DoBegin(s: State, dialog: int): State {
    if s.core.talk.Idle? && Active(s.rows, dialog, s.now) then WithCore(s, AtTalk(s.core, Drafting(dialog))) else s
  }

  /** Over the limit, no draft, or nothing left to settle: the consumer takes the next message. */
  function DoGiveUp(s: State): State {
    if s.core.talk.Drafting? || (s.core.talk.Settling? && s.core.talk.waiting == [] && s.mouth.Free?)
    then WithCore(s, AtTalk(s.core, Idle)) else s
  }

  /** The second check, at the head of `_dispatch`. */
  function DoClear(cfg: Config, s: State): State {
    if !s.core.talk.Drafting? then s
    else if Active(s.rows, s.core.talk.dialog, s.now) && cfg.enforce then
      State(AtTalk(s.core, Cleared(s.core.talk.dialog)), s.ear, s.mouth, s.outcome, s.rows, s.known, s.now, s.started,
            true)
    else WithCore(s, AtTalk(s.core, Idle))
  }

  function DoStart(s: State): State {
    if s.core.talk.Cleared? then
      State(StartSend(s.core), s.ear, s.mouth, s.outcome, s.rows, s.known, s.now,
            s.started[s.core.talk.dialog := Starts(s.started, s.core.talk.dialog) + 1], s.untouched)
    else s
  }

  /** An event reaches the outgoing consumer when its hand is free. */
  function DoHeard(s: State, ev: Ev): State {
    if !s.ear.Free? then s
    else
      var core := Deliver(s.core, ev);
      State(core, if ev in core.treated && ev !in s.core.treated then Look(ev) else Free, s.mouth, s.outcome, s.rows,
            s.known, s.now, s.started, s.untouched)
  }

  function DoNext(s: State): State {
    if !s.mouth.Free? || !s.core.talk.Settling? || s.core.talk.waiting == [] then s
    else
      var ev := s.core.talk.waiting[0];
      State(Settle(s.core), s.ear, if s.core.talk.mine == Some(ev) then Free else Look(ev), s.outcome, s.rows,
            s.known, s.now, s.started, s.untouched)
  }

  /** Any write to a dialog's row: the engine's pause, or enabling, disabling, pausing and resuming
      from outside. */
  function Rewritten(s: State, dialog: int, row: Row): State {
    State(s.core, s.ear, s.mouth, s.outcome, s.rows[dialog := row], s.known, s.now, s.started[dialog := 0],
          s.untouched && !(s.core.talk.Cleared? && s.core.talk.dialog == dialog))
  }

  /** What one storage call of `_pause_for_human_outgoing` leads to: the next hand, or an outcome. */
  function Moved(cfg: Config, s: State, hand: Hand, ok: bool): (Hand, Option<Outcome>) {
    match hand
    case Free => (Free, None)
    case Look(ev) =>
      if ev.dialog in s.known then (Check(ev, s.now), None)
      else if !ok then (Free, Some(StorageFailed))
      else if ev.dialog in s.rows && s.rows[ev.dialog].enabled then (Check(ev, s.now), None)
      else (Free, Some(NotEnabled))
    case Check(ev, at) =>
      if !ok then (Free, Some(StorageFailed))
      else if Active(s.rows, ev.dialog, at) then (Write(ev, at + cfg.pauseSec), None)
      else (Free, Some(AlreadyQuiet))
    case Write(ev, until) =>
      (Free, Some(if ok then Paused(until) else StorageFailed))
  }

  /** What the call does to the store and the set of known dialogs. */
  function Effect(s: State, hand: Hand, ok: bool): State {
    match hand
    case Free => s
    case Look(ev) =>
      if ok && ev.dialog in s.rows && s.rows[ev.dialog].enabled then
        State(s.core, s.ear, s.mouth, s.outcome, s.rows, s.known + {ev.dialog}, s.now, s.started, s.untouched)
      else s
    case Check(ev, at) => s
    case Write(ev, until) =>
      if ok && ev.dialog in s.rows then Rewritten(s, ev.dialog, Row(s.rows[ev.dialog].enabled, Some(until))) else s
  }

  function Noted(outcome: map<Ev, Outcome>, hand: Hand, how: Option<Outcome>): map<Ev, Outcome> {
    if hand.Free? || how == None then outcome else outcome[hand.ev := how.value]
  }

  function DoEar(cfg: Config, s: State, ok: bool): State {
    var (hand, how) := Moved(cfg, s, s.ear, ok);
    var t := Effect(s, s.ear, ok);
    State(t.core, hand, t.mouth, Noted(t.outcome, s.ear, how), t.rows, t.known, t.now, t.started, t.untouched)
  }

  function DoMouth(cfg: Config, s: State, ok: bool): State {
    var (hand, how) := Moved(cfg, s, s.mouth, ok);
    var t := Effect(s, s.mouth, ok);
    State(t.core, t.ear, hand, Noted(t.outcome, s.mouth, how), t.rows, t.known, t.now, t.started, t.untouched)
  }

  function Do(cfg: Config, s: State, a: Step): State {
    match a
    case Begin(dialog) => DoBegin(s, dialog)
    case GiveUp => DoGiveUp(s)
    case Clear => DoClear(cfg, s)
    case Start => DoStart(s)
    case Taken(ev) => WithCore(s, Accept(s.core, ev))
    case Returned => WithCore(s, Return(s.core, cfg.cap))
    case Raised => WithCore(s, Raise(s.core))
    case Heard(ev) => DoHeard(s, ev)
    case Next => DoNext(s)
    case EarStep(ok) => DoEar(cfg, s, ok)
    case MouthStep(ok) => DoMouth(cfg, s, ok)
    case Rewrite(dialog, row) => Rewritten(s, dialog, row)
    case Tick(now) =>
      State(s.core, s.ear, s.mouth, s.outcome, s.rows, s.known, if now > s.now then now else s.now,
            s.started, s.untouched)
  }

  function Run(cfg: Config, s: State, steps: seq<Step>): State
    decreases |steps|
  {
    if steps == [] then s else Run(cfg, Do(cfg, s, steps[0]), steps[1..])
  }

  function Init(rows: map<int, Row>): State {
    State(Core(Idle, ODict([], map[]), {}, {}, {}, map[]), Free, Free, map[], rows,
          set d | d in rows && rows[d].enabled, 0, map[], false)
  }

  // --- what holds all along ----------------------------------------------------------------------------

  /** Every event on the human path is in a hand or has its outcome, and only those have. */
  ghost predicate HandsOk(treated: set<Ev>, ear: Hand, mouth: Hand, outcome: map<Ev, Outcome>) {
    && (forall e | e in treated :: e in outcome || (!ear.Free? && ear.ev == e) || (!mouth.Free? && mouth.ev == e))
    && (forall e | e in outcome :: e in treated)
    && (!ear.Free? ==> ear.ev in treated && ear.ev !in outcome)
    && (!mouth.Free? ==> mouth.ev in treated && mouth.ev !in outcome)
    && (!ear.Free? && !mouth.Free? ==> ear.ev != mouth.ev)
  }

  /** A pause is only ever written over a row. */
  ghost predicate WriteOk(hand: Hand, rows: map<int, Row>) {
    hand.Write? ==> hand.ev.dialog in rows
  }

  /** The incoming consumer holds an event only while it settles, and a dialog that passed the first check
      stays known. */
  ghost predicate HoldOk(talk: Talk, ear: Hand, mouth: Hand, known: set<int>) {
    && (!mouth.Free? ==> talk.Settling?)
    && (ear.Check? || ear.Write? ==> ear.ev.dialog in known)
    && (mouth.Check? || mouth.Write? ==> mouth.ev.dialog in known)
  }

  /** A cleared talk whose row was not written since is still active; if it was written, no send has
      started since. */
  ghost predicate ClearOk(talk: Talk, rows: map<int, Row>, now: int, started: map<int, nat>, untouched: bool) {
    talk.Cleared? ==> if untouched then Active(rows, talk.dialog, now) else Starts(started, talk.dialog) == 0
  }

  ghost predicate Inv(cfg: Config, s: State) {
    && CoreOk(s.core, cfg.cap)
    && HandsOk(s.core.treated, s.ear, s.mouth, s.outcome)
    && WriteOk(s.ear, s.rows) && WriteOk(s.mouth, s.rows)
    && HoldOk(s.core.talk, s.ear, s.mouth, s.known)
    && ClearOk(s.core.talk, s.rows, s.now, s.started, s.untouched)
    && (!cfg.enforce ==> !s.core.talk.Cleared? && !s.core.talk.Sending?)
  }

  lemma HeardKeeps(cfg: Config, s: State, ev: Ev)
    requires Inv(cfg, s)
    ensures Inv(cfg, DoHeard(s, ev))
  {
    DeliverKeeps(s.core, ev, cfg.cap);
  }

  lemma NextKeeps(cfg: Config, s: State)
    requires Inv(cfg, s)
    ensures Inv(cfg, DoNext(s))
  {
    SettleKeeps(s.core, cfg.cap);
  }

  lemma EffectKeeps(cfg: Config, s: State, hand: Hand, ok: bool)
    requires Inv(cfg, s)
    ensures Inv(cfg, Effect(s, hand, ok))
    ensures var t := Effect(s, hand, ok);
            t.core == s.core && t.ear == s.ear && t.mouth == s.mouth && t.outcome == s.outcome
  {
  }

  lemma EarKeeps(cfg: Config, s: State, ok: bool)
    requires Inv(cfg, s)
    ensures Inv(cfg, DoEar(cfg, s, ok))
  {
    EffectKeeps(cfg, s, s.ear, ok);
  }

  lemma MouthKeeps(cfg: Config, s: State, ok: bool)
    requires Inv(cfg, s)
    ensures Inv(cfg, DoMouth(cfg, s, ok))
  {
    EffectKeeps(cfg, s, s.mouth, ok);
  }

  lemma BeginKeeps(cfg: Config, s: State, dialog: int)
    requires Inv(cfg, s)
    ensures Inv(cfg, DoBegin(s, dialog)) && Inv(cfg, DoGiveUp(s))
  {
  }

  lemma ClearKeeps(cfg: Config, s: State)
    requires Inv(cfg, s)
    ensures Inv(cfg, DoClear(cfg, s))
  {
  }

  lemma StartKeeps(cfg: Config, s: State)
    requires Inv(cfg, s)
    ensures Inv(cfg, DoStart(s))
  {
    StartSendKeeps(s.core, cfg.cap);
  }

  lemma DoKeeps(cfg: Config, s: State, a: Step)
    requires Inv(cfg, s)
    ensures Inv(cfg, Do(cfg, s, a))
  {
    match a
    case Begin(dialog) => BeginKeeps(cfg, s, dialog);
    case GiveUp => BeginKeeps(cfg, s, 0);
    case Clear => ClearKeeps(cfg, s);
    case Start => StartKeeps(cfg, s);
    case Taken(ev) => AcceptKeeps(s.core, ev, cfg.cap);
    case Returned => ReturnKeeps(s.core, cfg.cap);
    case Raised => RaiseKeeps(s.core, cfg.cap);
    case Heard(ev) => HeardKeeps(cfg, s, ev);
    case Next => NextKeeps(cfg, s);
    case EarStep(ok) => EarKeeps(cfg, s, ok);
    case MouthStep(ok) => MouthKeeps(cfg, s, ok);
    case Rewrite(dialog, row) =>
    case Tick(now) =>
  }

  lemma {:induction false} RunKeeps(cfg: Config, s: State, steps: seq<Step>)
    requires Inv(cfg, s)
    ensures Inv(cfg, Run(cfg, s, steps))
    decreases |steps|
  {
    if steps != [] {
      DoKeeps(cfg, s, steps[0]);
      RunKeeps(cfg, Do(cfg, s, steps[0]), steps[1..]);
    }
  }

  lemma InitOk(cfg: Config, rows: map<int, Row>)
    ensures Inv(cfg, Init(rows))
  {
  }

  // --- own against human -----------------------------------------------------------------------------------

  /** The event has come, and nobody is holding it any more. */
  ghost predicate Done(s: State, ev: Ev) {
    && ev in s.core.delivered && ev !in s.core.talk.Waiting()
    && (s.ear.Free? || s.ear.ev != ev) && (s.mouth.Free? || s.mouth.ev != ev)
  }

  /** Over any run: a human's message always gets its outcome on the pausing path, and an own reply
      gets one exactly when it was mistaken. Nothing else ever gets one. */
  lemma HumansAndMistakesOnly(cfg: Config, rows: map<int, Row>, steps: seq<Step>, ev: Ev)
    ensures var s := Run(cfg, Init(rows), steps);
            && (Done(s, ev) ==> (ev in s.outcome <==> ev !in s.core.accepted || ev in s.core.mistaken))
            && (ev in s.outcome ==> ev in s.core.delivered)
  {
    InitOk(cfg, rows);
    RunKeeps(cfg, Init(rows), steps);
  }

  /** The cache forgets one id at most for a new one, the oldest, and only when it is full. */
  lemma ForgottenIs(own: ODict<Ev, bool>, ev: Ev, cap: nat, delivered: set<Ev>)
    requires own.Ok() && |own.keys| <= cap && ev !in own.vals
    ensures Forgotten(own, ev, cap, delivered)
            == (if cap == 0 then {ev} else if |own.keys| == cap then {own.keys[0]} else {}) - delivered
  {
    var longer := own.PutLast(ev, true);
    WithoutAbsent(own.keys, ev);
    own.PutLastOk(ev, true);
    assert longer.keys == own.keys + [ev];
    if |own.keys| == cap {
      longer.DropOldestOk();
      assert |longer.DropOldest().keys| == cap;
      assert longer.DropOldest().Capped(cap) == longer.DropOldest();
      assert Remembered(own, ev, cap) == longer.DropOldest();
      assert longer.keys[0] == if cap == 0 then ev else own.keys[0];
    }
  }

  lemma MistakenOnReturn(c: Core, cap: nat, ev: Ev)
    requires CoreOk(c, cap) && ev !in c.mistaken && c.talk.Sending? && c.talk.mine.Some?
    ensures ev in Return(c, cap).mistaken <==>
              && ev !in c.delivered
              && if cap == 0 then ev == c.talk.mine.value else |c.own.keys| == cap && ev == c.own.keys[0]
  {
    ForgottenIs(c.own, c.talk.mine.value, cap, c.delivered);
  }

  /** The exact moments at which an own message becomes mistaken. */
  lemma MistakenExactlyWhen(cfg: Config, s: State, a: Step, ev: Ev)
    requires Inv(cfg, s) && ev !in s.core.mistaken
    ensures var c := s.core;
            ev in Do(cfg, s, a).core.mistaken <==>
              || (&& a == Heard(ev) && s.ear.Free? && ev in c.accepted && ev !in c.delivered
                  && c.talk.Sending? && c.talk.dialog == ev.dialog && c.talk.mine != Some(ev))
              || (a == Raised && c.talk.Sending? && c.talk.mine == Some(ev))
              || (&& a == Returned && c.talk.Sending? && c.talk.mine.Some? && ev !in c.delivered
                  && if cfg.cap == 0 then ev == c.talk.mine.value else |c.own.keys| == cfg.cap && ev == c.own.keys[0])
  {
    match a
    case Returned =>
      if s.core.talk.Sending? && s.core.talk.mine.Some? {
        MistakenOnReturn(s.core, cfg.cap, ev);
      }
    case Heard(e) =>
    case Raised =>
    case _ =>
  }

  /** An echo that is recognised is not handed over, and its id leaves the cache, the others in order. */
  lemma EchoFreesItsPlace(c: Core, ev: Ev, cap: nat, a: seq<Ev>, b: seq<Ev>)
    requires CoreOk(c, cap) && ev !in c.delivered && !(c.talk.Sending? && c.talk.dialog == ev.dialog)
    requires c.own.keys == a + [ev] + b
    ensures Deliver(c, ev).own.keys == a + b && Deliver(c, ev).treated == c.treated
  {
    assert forall i | 0 <= i < |a| :: a[i] == c.own.keys[i];
    assert forall i | 0 <= i < |b| :: b[i] == c.own.keys[|a| + 1 + i];
    assert c.own.keys[|a|] == ev;
    WithoutAround(a, ev, b);
  }

  /** What a caller can see before a step and must avoid: an own echo coming while another send to the
      same dialog is in flight, a send that raises after the server took it, a full id cache. */
  ghost predicate Benign(cfg: Config, c: Core, a: Step) {
    match a
    case Heard(ev) =>
      ev in c.accepted && ev !in c.delivered && c.talk.Sending? && c.talk.dialog == ev.dialog ==>
        c.talk.mine == Some(ev)
    case Raised => c.talk.Sending? ==> c.talk.mine == None
    case Returned => |c.own.keys| < cfg.cap
    case _ => true
  }

  ghost predicate AllBenign(cfg: Config, s: State, steps: seq<Step>)
    decreases |steps|
  {
    steps == [] || (Benign(cfg, s.core, steps[0]) && AllBenign(cfg, Do(cfg, s, steps[0]), steps[1..]))
  }

  lemma RoomForgetsNothing(own: ODict<Ev, bool>, ev: Ev, cap: nat, delivered: set<Ev>)
    requires own.Ok() && |own.keys| < cap
    ensures Forgotten(own, ev, cap, delivered) == {}
  {
    own.PutLastOk(ev, true);
  }

  lemma BenignReturn(c: Core, cap: nat)
    requires CoreOk(c, cap) && |c.own.keys| < cap
    ensures Return(c, cap).mistaken == c.mistaken
  {
    if c.talk.Sending? && c.talk.mine.Some? {
      RoomForgetsNothing(c.own, c.talk.mine.value, cap, c.delivered);
      assert Mark(c.mistaken, {}, Evicted) == c.mistaken;
    }
  }

  /** An echo of an own message taken while others' sends are not in flight goes unmistaken, unless its
      id was already lost; the three guards are all there is. */
  lemma BenignStepsMistakeNothing(cfg: Config, s: State, a: Step)
    requires Inv(cfg, s) && Benign(cfg, s.core, a)
    ensures Do(cfg, s, a).core.mistaken == s.core.mistaken
  {
    match a
    case Returned => BenignReturn(s.core, cfg.cap);
    case Heard(ev) =>
    case Raised =>
    case _ =>
  }

  lemma {:induction false} BenignRunsMistakeNothing(cfg: Config, s: State, steps: seq<Step>)
    requires Inv(cfg, s) && AllBenign(cfg, s, steps)
    ensures Run(cfg, s, steps).core.mistaken == s.core.mistaken
    decreases |steps|
  {
    if steps != [] {
      DoKeeps(cfg, s, steps[0]);
      BenignStepsMistakeNothing(cfg, s, steps[0]);
      BenignRunsMistakeNothing(cfg, Do(cfg, s, steps[0]), steps[1..]);
    }
  }

  /** Without a crossing, an orphan or an overflow, no own reply ever reaches the pausing path, and
      every human message does. */
  lemma OwnRepliesNeverPause(cfg: Config, rows: map<int, Row>, steps: seq<Step>, ev: Ev)
    requires AllBenign(cfg, Init(rows), steps)
    ensures var s := Run(cfg, Init(rows), steps);
            && (ev in s.core.accepted ==> ev !in s.core.treated && ev !in s.outcome)
            && (ev in s.core.delivered && ev !in s.core.accepted ==>
                  ev in s.core.treated || ev in s.core.talk.Waiting())
  {
    InitOk(cfg, rows);
    RunKeeps(cfg, Init(rows), steps);
    BenignRunsMistakeNothing(cfg, Init(rows), steps);
  }

  // --- the pause ---------------------------------------------------------------------------------------------

  /** The call goes well, for an event that is to pause its dialog: it does not fail, and finds the dialog
      enabled, then active. */
  ghost predicate Fine(s: State, hand: Hand, ok: bool) {
    match hand
    case Free => true
    case Look(ev) => ev.dialog in s.known || (ok && ev.dialog in s.rows && s.rows[ev.dialog].enabled)
    case Check(ev, at) => ok && Active(s.rows, ev.dialog, at)
    case Write(ev, until) => ok
  }

  ghost predicate StepFine(s: State, a: Step, ev: Ev) {
    && (a.EarStep? && !s.ear.Free? && s.ear.ev == ev ==> Fine(s, s.ear, a.ok))
    && (a.MouthStep? && !s.mouth.Free? && s.mouth.ev == ev ==> Fine(s, s.mouth, a.ok))
  }

  /** Every storage call made for the event along a run goes well. */
  ghost predicate Unhindered(cfg: Config, s: State, steps: seq<Step>, ev: Ev)
    decreases |steps|
  {
    steps == [] || (StepFine(s, steps[0], ev) && Unhindered(cfg, Do(cfg, s, steps[0]), steps[1..], ev))
  }

  lemma OutcomeStays(cfg: Config, s: State, a: Step, ev: Ev)
    requires Inv(cfg, s) && ev in s.outcome
    ensures StepFine(s, a, ev)
    ensures ev in Do(cfg, s, a).outcome && Do(cfg, s, a).outcome[ev] == s.outcome[ev]
  {
  }

  lemma {:induction false} OutcomesStay(cfg: Config, s: State, steps: seq<Step>, ev: Ev)
    requires Inv(cfg, s) && ev in s.outcome
    ensures Unhindered(cfg, s, steps, ev)
    ensures ev in Run(cfg, s, steps).outcome && Run(cfg, s, steps).outcome[ev] == s.outcome[ev]
    decreases |steps|
  {
    if steps != [] {
      OutcomeStays(cfg, s, steps[0], ev);
      DoKeeps(cfg, s, steps[0]);
      OutcomesStay(cfg, Do(cfg, s, steps[0]), steps[1..], ev);
    }
  }

  /** A call that does not go well ends the event's way, one that does leads on or to a pause. */
  lemma StepEndsOrNot(cfg: Config, s: State, a: Step, ev: Ev)
    requires Inv(cfg, s) && ev !in s.outcome
    ensures var t := Do(cfg, s, a);
            && (!StepFine(s, a, ev) ==> ev in t.outcome)
            && (ev in t.outcome ==> (t.outcome[ev].Paused? <==> StepFine(s, a, ev)))
  {
  }

  lemma {:induction false} PausedIff(cfg: Config, s: State, steps: seq<Step>, ev: Ev)
    requires Inv(cfg, s) && ev !in s.outcome
    ensures var n := Run(cfg, s, steps);
            ev in n.outcome ==> (n.outcome[ev].Paused? <==> Unhindered(cfg, s, steps, ev))
    decreases |steps|
  {
    if steps != [] {
      var t := Do(cfg, s, steps[0]);
      StepEndsOrNot(cfg, s, steps[0], ev);
      DoKeeps(cfg, s, steps[0]);
      if ev in t.outcome {
        OutcomesStay(cfg, t, steps[1..], ev);
      } else {
        PausedIff(cfg, t, steps[1..], ev);
      }
    }
  }

  /** Over any run, before, during or after a send, put off or not: a human's message that was dealt with
      paused its dialog if and only if no storage call for it failed and these found the dialog enabled and
      active. The same holds of an own reply that was taken for a human's. */
  lemma HumansPauseIff(cfg: Config, rows: map<int, Row>, steps: seq<Step>, ev: Ev)
    ensures var s := Run(cfg, Init(rows), steps);
            Done(s, ev) && LooksHuman(s.core.accepted, s.core.mistaken, ev) ==>
              ev in s.outcome && (s.outcome[ev].Paused? <==> Unhindered(cfg, Init(rows), steps, ev))
  {
    InitOk(cfg, rows);
    RunKeeps(cfg, Init(rows), steps);
    PausedIff(cfg, Init(rows), steps, ev);
  }

  lemma WriteLands(cfg: Config, s: State, hand: Hand, ok: bool)
    requires WriteOk(hand, s.rows)
    ensures var how, t := Moved(cfg, s, hand, ok).1, Effect(s, hand, ok);
            how.Some? && how.value.Paused? ==>
              && hand.Write? && ok && how.value.until == hand.until && hand.ev.dialog in s.rows
              && t.rows == s.rows[hand.ev.dialog := Row(s.rows[hand.ev.dialog].enabled, Some(hand.until))]
  {
  }

  /** And when an event becomes a pause, its row holds that pause, still enabled or not as before: the
      dialog is inactive at every time before the end. Every other row is as it was. */
  lemma PauseIsWritten(cfg: Config, s: State, a: Step, ev: Ev)
    requires Inv(cfg, s) && ev !in s.outcome
    ensures var t, d := Do(cfg, s, a), ev.dialog;
            ev in t.outcome && t.outcome[ev].Paused? ==>
              && d in s.rows && t.rows == s.rows[d := Row(s.rows[d].enabled, Some(t.outcome[ev].until))]
              && (forall now | now < t.outcome[ev].until :: !Active(t.rows, d, now))
              && (forall now | now >= t.outcome[ev].until :: Active(t.rows, d, now) <==> s.rows[d].enabled)
  {
    match a
    case EarStep(ok) => WriteLands(cfg, s, s.ear, ok);
    case MouthStep(ok) => WriteLands(cfg, s, s.mouth, ok);
    case _ =>
  }

  /** With nothing in between: a dialog found active is paused at the next call. */
  lemma HumanPauses(cfg: Config, s: State)
    requires s.ear.Check? && Active(s.rows, s.ear.ev.dialog, s.ear.at)
    ensures var ev, until := s.ear.ev, s.ear.at + cfg.pauseSec;
            var t := DoEar(cfg, DoEar(cfg, s, true), true);
            && t.outcome == s.outcome[ev := Paused(until)]
            && (forall now | now < until :: !Active(t.rows, ev.dialog, now))
            && (forall now | now >= until :: Active(t.rows, ev.dialog, now))
            && (forall d | d in s.rows && d != ev.dialog :: t.rows[d] == s.rows[d])
  {
  }

  /** What an outcome says was true at the storage call that gave it: the dialog was neither known nor
      enabled, or not active, or the call failed, or the row now holds a pause that lasts to its end. */
  lemma OutcomesAreTrue(cfg: Config, s: State, hand: Hand, ok: bool)
    requires !hand.Free?
    ensures var how, d := Moved(cfg, s, hand, ok).1, hand.ev.dialog;
            && (how == Some(NotEnabled) ==> d !in s.known && (d !in s.rows || !s.rows[d].enabled))
            && (how == Some(AlreadyQuiet) ==> hand.Check? && !Active(s.rows, d, hand.at))
            && (how == Some(StorageFailed) ==>
                  !ok && (hand.Look? ==> d !in s.known) && Effect(s, hand, ok).rows == s.rows)
            && (how.Some? && how.value.Paused? ==>
                  forall now | now < how.value.until :: !Active(Effect(s, hand, ok).rows, d, now))
            && (!hand.Write? ==> Effect(s, hand, ok).rows == s.rows)
  {
  }

  /** After the row is written, by a human's pause or from outside, at most one send can start in the
      dialog against it: the one whose check had already passed. A second one starts only where the
      dialog is active, and without enforcement none starts at all. */
  lemma OnlyOneLateSend(cfg: Config, rows: map<int, Row>, steps: seq<Step>)
    ensures var s := Run(cfg, Init(rows), steps);
            s.core.talk.Cleared? ==>
              && cfg.enforce
              && (Starts(s.started, s.core.talk.dialog) >= 1 ==> Active(s.rows, s.core.talk.dialog, s.now))
              && (!Active(s.rows, s.core.talk.dialog, s.now) ==> !s.untouched)
  {
    InitOk(cfg, rows);
    RunKeeps(cfg, Init(rows), steps);
  }

  /** The step writes the dialog's row. */
  predicate Writes(s: State, a: Step, dialog: int) {
    || (a.Rewrite? && a.dialog == dialog)
    || (a == EarStep(true) && s.ear.Write? && s.ear.ev.dialog == dialog)
    || (a == MouthStep(true) && s.mouth.Write? && s.mouth.ev.dialog == dialog)
  }

  ghost predicate LeftAlone(cfg: Config, s: State, steps: seq<Step>, dialog: int)
    decreases |steps|
  {
    steps == [] || (!Writes(s, steps[0], dialog) && LeftAlone(cfg, Do(cfg, s, steps[0]), steps[1..], dialog))
  }

  lemma {:induction false} StartsStay(cfg: Config, s: State, steps: seq<Step>, dialog: int)
    requires LeftAlone(cfg, s, steps, dialog)
    ensures Starts(Run(cfg, s, steps).started, dialog) >= Starts(s.started, dialog)
    decreases |steps|
  {
    if steps != [] {
      StartsStay(cfg, Do(cfg, s, steps[0]), steps[1..], dialog);
    }
  }

  /** Once a send has started in a dialog, and as long as nobody writes its row, the engine comes to the
      point of another one only while the row says enabled and not paused: of the sends against a pause
      the first is the last. */
  lemma NextSendIsActive(cfg: Config, rows: map<int, Row>, steps: seq<Step>, later: seq<Step>, dialog: int)
    requires Run(cfg, Init(rows), steps).core.talk == Cleared(dialog)
    requires LeftAlone(cfg, Do(cfg, Run(cfg, Init(rows), steps), Start), later, dialog)
    ensures var t := Run(cfg, Do(cfg, Run(cfg, Init(rows), steps), Start), later);
            t.core.talk == Cleared(dialog) ==>
              && cfg.enforce && dialog in t.rows && t.rows[dialog].enabled
              && (t.rows[dialog].pausedUntil.Some? ==> t.rows[dialog].pausedUntil.value <= t.now)
  {
    var s := Run(cfg, Init(rows), steps);
    InitOk(cfg, rows);
    RunKeeps(cfg, Init(rows), steps);
    DoKeeps(cfg, s, Start);
    RunKeeps(cfg, Do(cfg, s, Start), later);
    StartsStay(cfg, Do(cfg, s, Start), later, dialog);
  }

  /** The two checks: a draft is begun, and a drafted reply let through, exactly while the row says
      enabled and not paused; the second needs enforcement as well. */
  lemma BothChecks(cfg: Config, s: State, dialog: int)
    ensures var active := dialog in s.rows && s.rows[dialog].enabled
                          && (s.rows[dialog].pausedUntil.Some? ==> s.rows[dialog].pausedUntil.value <= s.now);
            && (s.core.talk.Idle? ==> Do(cfg, s, Begin(dialog)).core.talk == if active then Drafting(dialog) else Idle)
            && (s.core.talk == Drafting(dialog) ==>
                  Do(cfg, s, Clear).core.talk == if active && cfg.enforce then Cleared(dialog) else Idle)
  {
  }

  lemma KnownStep(cfg: Config, s: State, a: Step, dialog: int)
    ensures dialog in s.known ==> dialog in Do(cfg, s, a).known
    ensures dialog in Do(cfg, s, a).known ==> dialog in s.known || (dialog in s.rows && s.rows[dialog].enabled)
  {
  }

  lemma {:induction false} KnownGrow(cfg: Config, s: State, steps: seq<Step>, dialog: int)
    ensures dialog in s.known ==> dialog in Run(cfg, s, steps).known
    ensures dialog in Run(cfg, s, steps).known ==>
              dialog in s.known || exists k | 0 <= k <= |steps| :: EnabledAfter(cfg, s, steps, k, dialog)
    decreases |steps|
  {
    if steps != [] {
      var t := Do(cfg, s, steps[0]);
      KnownGrow(cfg, t, steps[1..], dialog);
      KnownStep(cfg, s, steps[0], dialog);
      if dialog in Run(cfg, s, steps).known && dialog !in s.known {
        if dialog in t.known {
          assert steps[..0] == [] && EnabledAfter(cfg, s, steps, 0, dialog);
        } else {
          var k :| 0 <= k <= |steps| - 1 && EnabledAfter(cfg, t, steps[1..], k, dialog);
          assert steps[..k + 1][1..] == steps[1..][..k];
          assert EnabledAfter(cfg, s, steps, k + 1, dialog);
        }
      }
    }
  }

  /** The known dialogs: all that were enabled at the start, and no other but those enabled at some
      moment of the run. */
  lemma KnownWereEnabled(cfg: Config, rows: map<int, Row>, steps: seq<Step>, dialog: int)
    ensures var known := Run(cfg, Init(rows), steps).known;
            && (dialog in rows && rows[dialog].enabled ==> dialog in known)
            && (dialog in known ==> exists k | 0 <= k <= |steps| :: EnabledAfter(cfg, Init(rows), steps, k, dialog))
  {
    KnownGrow(cfg, Init(rows), steps, dialog);
    if dialog in Init(rows).known {
      assert steps[..0] == [] && EnabledAfter(cfg, Init(rows), steps, 0, dialog);
    }
  }

  ghost predicate EnabledAfter(cfg: Config, s: State, steps: seq<Step>, k: nat, dialog: int)
    requires k <= |steps|
  {
    var t := Run(cfg, s, steps[..k]); dialog in t.rows && t.rows[dialog].enabled
  }

  // --- two races, as runs --------------------------------------------------------------------------------

  const FIRST := Ev(7, 1)
  const SECOND := Ev(7, 2)

  function OneDialog(): map<int, Row> {
    map[7 := Row(true, None)]
  }

  lemma {:induction false} OneMore(cfg: Config, s: State, steps: seq<Step>, a: Step)
    ensures Run(cfg, s, steps + [a]) == Do(cfg, Run(cfg, s, steps), a)
    decreases |steps|
  {
    if steps == [] {
      assert steps + [a] == [a] && [a][1..] == [];
    } else {
      assert (steps + [a])[1..] == steps[1..] + [a];
      OneMore(cfg, Do(cfg, s, steps[0]), steps[1..], a);
    }
  }

  /** From an idle consumer and an active dialog, a send starts. */
  lemma StartedSend(cfg: Config, s: State, steps: seq<Step>) returns (longer: seq<Step>)
    requires cfg.enforce && Run(cfg, s, steps).core.talk.Idle?
    requires Active(Run(cfg, s, steps).rows, 7, Run(cfg, s, steps).now)
    ensures longer == steps + [Begin(7)] + [Clear] + [Start]
    ensures var before := Run(cfg, s, steps);
            var after := Run(cfg, s, longer);
            && after.core == AtTalk(before.core, Sending(7, None, []))
            && after.ear == before.ear && after.mouth == before.mouth
            && after.rows == before.rows && after.now == before.now
  {
    OneMore(cfg, s, steps, Begin(7));
    OneMore(cfg, s, steps + [Begin(7)], Clear);
    OneMore(cfg, s, steps + [Begin(7)] + [Clear], Start);
    longer := steps + [Begin(7)] + [Clear] + [Start];
  }

  /** The first reply, up to an idle consumer; its echo has not come yet. */
  lemma RepliedOnce(cfg: Config) returns (steps: seq<Step>)
    requires cfg.enforce
    ensures steps == [Begin(7), Clear, Start, Taken(FIRST), Returned, GiveUp]
    ensures var s := Run(cfg, Init(OneDialog()), steps);
            && s.core.talk.Idle? && s.core.accepted == {FIRST} && s.core.delivered == {}
            && s.ear.Free? && s.mouth.Free? && s.rows == OneDialog() && s.now == 0
  {
    var s := Init(OneDialog());
    steps := StartedSend(cfg, s, []);
    assert Run(cfg, s, steps).core.delivered == {};
    OneMore(cfg, s, steps, Taken(FIRST));
    OneMore(cfg, s, steps + [Taken(FIRST)], Returned);
    OneMore(cfg, s, steps + [Taken(FIRST)] + [Returned], GiveUp);
    steps := steps + [Taken(FIRST)] + [Returned] + [GiveUp];
  }

  lemma LateHeard(cfg: Config, s: State)
    requires s.core.talk == Sending(7, None, []) && s.core.accepted == {FIRST} && s.core.delivered == {} && s.ear.Free?
    ensures var t := Do(cfg, s, Heard(FIRST));
            && t.core.talk == Sending(7, None, [FIRST]) && t.core.delivered == {FIRST} && t.core.accepted == {FIRST}
            && t.mouth == s.mouth
  {
  }

  lemma LateSettled(cfg: Config, s: State)
    requires s.core.talk == Sending(7, None, [FIRST]) && s.core.accepted == {FIRST} && s.core.delivered == {FIRST}
    requires s.mouth.Free?
    ensures var late := Do(cfg, Do(cfg, Do(cfg, s, Taken(SECOND)), Returned), Next);
            FIRST in late.core.accepted && FIRST in late.core.treated && late.mouth == Look(FIRST)
  {
    var taken := Do(cfg, s, Taken(SECOND));
    assert taken.core.talk == Sending(7, Some(SECOND), [FIRST]) && taken.mouth.Free?;
    var returned := Do(cfg, taken, Returned);
    assert returned.core.talk == Settling(7, Some(SECOND), [FIRST]) && returned.mouth.Free?;
  }

  lemma FourMore(cfg: Config, s: State, steps: seq<Step>, a: Step, b: Step, c: Step, d: Step)
    ensures Run(cfg, s, steps + [a] + [b] + [c] + [d])
            == Do(cfg, Do(cfg, Do(cfg, Do(cfg, Run(cfg, s, steps), a), b), c), d)
  {
    OneMore(cfg, s, steps, a);
    OneMore(cfg, s, steps + [a], b);
    OneMore(cfg, s, steps + [a] + [b], c);
    OneMore(cfg, s, steps + [a] + [b] + [c], d);
  }

  lemma LateEcho(cfg: Config, s: State, steps: seq<Step>) returns (longer: seq<Step>)
    requires var t := Run(cfg, s, steps);
             && t.core.talk == Sending(7, None, []) && t.core.accepted == {FIRST} && t.core.delivered == {}
             && t.ear.Free? && t.mouth.Free?
    ensures longer == steps + [Heard(FIRST)] + [Taken(SECOND)] + [Returned] + [Next]
    ensures var t := Run(cfg, s, longer);
            FIRST in t.core.accepted && FIRST in t.core.treated && t.mouth == Look(FIRST)
  {
    var t := Run(cfg, s, steps);
    LateHeard(cfg, t);
    LateSettled(cfg, Do(cfg, t, Heard(FIRST)));
    FourMore(cfg, s, steps, Heard(FIRST), Taken(SECOND), Returned, Next);
    longer := steps + [Heard(FIRST)] + [Taken(SECOND)] + [Returned] + [Next];
  }

  /** The own echo that comes too late, for any size of the id cache: the engine replies twice in a
      dialog, no send fails, the first echo comes during the second send, and the engine's own reply is
      handed to the pausing path. */
  lemma LateEchoIsTakenForHuman(cfg: Config) returns (steps: seq<Step>)
    requires cfg.enforce
    ensures Raised !in steps
    ensures var s := Run(cfg, Init(OneDialog()), steps);
            FIRST in s.core.accepted && FIRST in s.core.treated && s.mouth == Look(FIRST)
  {
    var once := RepliedOnce(cfg);
    var twice := StartedSend(cfg, Init(OneDialog()), once);
    steps := LateEcho(cfg, Init(OneDialog()), twice);
  }

  /** The human who comes too early: the reply was cleared, the human's message then pauses the dialog,
      and the send starts all the same. */
  lemma ClearedSendStartsInAPause(cfg: Config) returns (steps: seq<Step>)
    requires cfg.enforce && cfg.pauseSec > 0
    ensures var s := Run(cfg, Init(OneDialog()), steps);
            && s.core.talk.Sending? && !Active(s.rows, s.core.talk.dialog, s.now)
            && s.outcome == map[FIRST := Paused(s.now + cfg.pauseSec)]
  {
    var s := Init(OneDialog());
    steps := [Begin(7)] + [Clear] + [Heard(FIRST)] + [EarStep(true)] + [EarStep(true)] + [EarStep(true)] + [Start];
    OneMore(cfg, s, [], Begin(7));
    OneMore(cfg, s, [Begin(7)], Clear);
    OneMore(cfg, s, [Begin(7)] + [Clear], Heard(FIRST));
    var heard := Run(cfg, s, [Begin(7)] + [Clear] + [Heard(FIRST)]);
    assert [] + [Begin(7)] == [Begin(7)];
    assert heard.ear == Look(FIRST) && heard.core.talk == Cleared(7) && heard.rows == OneDialog() && heard.now == 0;
    PausedByEar(cfg, s, [Begin(7)] + [Clear] + [Heard(FIRST)]);
    OneMore(cfg, s, [Begin(7)] + [Clear] + [Heard(FIRST)] + [EarStep(true)] + [EarStep(true)] + [EarStep(true)], Start);
  }

  lemma PausedByEar(cfg: Config, s: State, steps: seq<Step>)
    requires var t := Run(cfg, s, steps); t.ear.Look? && Active(t.rows, t.ear.ev.dialog, t.now)
    ensures var t := Run(cfg, s, steps);
            var u := Run(cfg, s, steps + [EarStep(true)] + [EarStep(true)] + [EarStep(true)]);
            && u.core == t.core && u.now == t.now && u.outcome == t.outcome[t.ear.ev := Paused(t.now + cfg.pauseSec)]
            && (cfg.pauseSec > 0 ==> !Active(u.rows, t.ear.ev.dialog, u.now))
  {
    OneMore(cfg, s, steps, EarStep(true));
    OneMore(cfg, s, steps + [EarStep(true)], EarStep(true));
    OneMore(cfg, s, steps + [EarStep(true)] + [EarStep(true)], EarStep(true));
    HumanPauses(cfg, Run(cfg, s, steps + [EarStep(true)]));
  }

  // --- the object ---------------------------------------------------------------------------------------

  /** The put-off events that are not the message just sent, in order. */
  function Others(events: seq<Ev>, mine: Option<Ev>): seq<Ev> {
    if events == [] then []
    else (if mine == Some(events[0]) then [] else [events[0]]) + Others(events[1..], mine)
  }

  lemma {:induction false} OthersSnoc(events: seq<Ev>, e: Ev, mine: Option<Ev>)
    ensures Others(events + [e], mine) == Others(events, mine) + (if mine == Some(e) then [] else [e])
  {
    if events == [] {
      assert [] + [e] == [e];
    } else {
      assert (events + [e])[1..] == events[1..] + [e];
      OthersSnoc(events[1..], e, mine);
    }
  }

  class GhostwriteEngine {
    const cap: nat
    var sending: map<int, seq<Ev>>
    var ownSent: ODict<Ev, bool>
    ghost var core: Core

    ghost predicate Valid() reads this {
      sending == core.talk.Dict() && ownSent == core.own && CoreOk(core, cap)
    }

    constructor (cap: nat)
      ensures Valid() && this.cap == cap && core == Init(map[]).core
    {
      this.cap := cap;
      sending, ownSent, core := map[], ODict([], map[]), Core(Idle, ODict([], map[]), {}, {}, {}, map[]);
    }

    method RememberOwn(ev: Ev)
      modifies this`ownSent
      ensures ownSent == Remembered(old(ownSent), ev, cap)
    {
      ownSent := ownSent.PutLast(ev, true);
      while |ownSent.keys| > cap
        invariant ownSent.Capped(cap) == Remembered(old(ownSent), ev, cap)
        decreases |ownSent.keys|
      {
        ownSent := ownSent.DropOldest();
      }
    }

    method BeginSend(dialog: int)
      requires Valid() && core.talk == Cleared(dialog)
      modifies this
      ensures Valid() && core == StartSend(old(core))
    {
      sending := sending[dialog := []];
      StartSendKeeps(core, cap);
      core := StartSend(core);
    }

    /** The end of `_dispatch`'s send: with the id of the message sent, or without one after a failure. */
    method EndSend(dialog: int, id: Option<int>) returns (pending: seq<Ev>)
      requires Valid() && core.talk.Sending? && core.talk.dialog == dialog
      requires id.Some? ==> core.talk.mine == Some(Ev(dialog, id.value))
      modifies this
      ensures Valid() && pending == old(core).talk.waiting
      ensures core == if id.Some? then Return(old(core), cap) else Raise(old(core))
    {
      pending := sending[dialog];
      if id.Some? {
        RememberOwn(Ev(dialog, id.value));
        ReturnKeeps(core, cap);
        core := Return(core, cap);
      } else {
        RaiseKeeps(core, cap);
        core := Raise(core);
      }
      sending := sending - {dialog};
    }

    /** The synchronous part of `on_outgoing`; `human` says the pausing path is taken. */
    method OnOutgoing(ev: Ev) returns (human: bool)
      requires Valid() && ev !in core.delivered
      modifies this
      ensures Valid() && core == Deliver(old(core), ev)
      ensures human <==> ev in core.treated
    {
      DeliverKeeps(core, ev, cap);
      human := false;
      if ev.dialog in sending {
        sending := sending[ev.dialog := sending[ev.dialog] + [ev]];
      } else if ev in ownSent.vals {
        ownSent := ownSent.Remove(ev);
      } else {
        human := true;
      }
      core := Deliver(core, ev);
    }
  }

  /** The loop of `_handle_deferred_outgoing`: which put-off events go on to pause the dialog. */
  method DeferredHumans(events: seq<Ev>, mine: Option<Ev>) returns (humans: seq<Ev>)
    ensures humans == Others(events, mine)
  {
    humans := [];
    for i := 0 to |events|
      invariant humans == Others(events[..i], mine)
    {
      assert events[..i + 1] == events[..i] + [events[i]];
      OthersSnoc(events[..i], events[i], mine);
      if mine != Some(events[i]) {
        humans := humans + [events[i]];
      }
    }
    assert events[..|events|] == events;
  }

  /** Settling the whole list hands over exactly those events, the rest of the core unchanged. */
  lemma {:induction false} SettlingHandsOverTheOthers(c: Core)
    requires c.talk.Settling?
    ensures var d := SettleAll(c);
            && d.talk == Settling(c.talk.dialog, c.talk.mine, [])
            && d.treated == c.treated + (set e | e in Others(c.talk.waiting, c.talk.mine))
            && d.own == c.own && d.accepted == c.accepted && d.delivered == c.delivered && d.mistaken == c.mistaken
    decreases |c.talk.waiting|
  {
    if c.talk.waiting != [] {
      SettlingHandsOverTheOthers(Settle(c));
    }
  }

  function SettleAll(c: Core): Core
    requires c.talk.Settling?
    decreases |c.talk.waiting|
  {
    if c.talk.waiting == [] then c else SettleAll(Settle(c))
  }
}
