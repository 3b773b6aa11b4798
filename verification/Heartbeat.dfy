/** The heartbeat scheduler (core/heartbeat.py): when a plan pings, by interval, jitter, quiet hours and a
    daily bound, from a few stored counters. They are compared with the full list of the pings it has
    recorded. */
module Heartbeat {
  import opened Common
  import opened SlidingWindows

  const DAY := 86400.0
  const HOUR_SECONDS := 3600.0

  /** An hour as the clock shows it. */
  type Hour = h: int | 0 <= h <= 23

  datatype Rules = Rules(
    intervalHours: real,
    jitterMinutes: real,
    quietStart: Option<int>,
    quietEnd: Option<int>,
    maxPerDay: int)

  /** What the model's validators demand of a plan. */
  predicate Accepted(r: Rules) {
    && r.intervalHours > 0.0 && r.jitterMinutes >= 0.0 && r.maxPerDay >= 1
    && (r.quietStart.Some? ==> 0 <= r.quietStart.value <= 23)
    && (r.quietEnd.Some? ==> 0 <= r.quietEnd.value <= 23)
  }

  datatype Plan = Plan(
    rules: Rules,
    enabled: bool,
    lastPingAt: Option<real>,
    pingsToday: int,
    dayStart: Option<real>,
    nextJitter: Option<real>)

  /** What one tick learns from outside: whether the last message is ours, the jitter drawn for the
      next interval, and whether the record could be stored. */
  datatype Answer = Answer(lastIsOurs: bool, drawn: real, stored: bool)

  predicate InQuietWindow(hour: int, start: int, end: int) {
    if start == end then false
    else if start < end then start <= hour < end
    else hour >= start || hour < end
  }

  predicate Quiet(r: Rules, hour: Hour) {
    r.quietStart.Some? && r.quietEnd.Some? && InQuietWindow(hour, r.quietStart.value, r.quietEnd.value)
  }

  /** The hours from `start` up to `end`, as an arc of the clock face, midnight included. */
  predicate Arc(start: Option<int>, end: Option<int>, hour: Hour) {
    start.Some? && end.Some? && (hour - start.value) % 24 < (end.value - start.value) % 24
  }

  /** A plan is quiet exactly on the arc from its first quiet hour up to its last, and never with one
      of the two missing. */
  lemma QuietIsAnArc(r: Rules, hour: Hour)
    requires Accepted(r)
    ensures Quiet(r, hour) <==> Arc(r.quietStart, r.quietEnd, hour)
  {
    if r.quietStart.Some? && r.quietEnd.Some? {
      var start, end := r.quietStart.value, r.quietEnd.value;
      assert hour < start ==> (hour - start) % 24 == hour - start + 24;
      assert end < start ==> (end - start) % 24 == end - start + 24;
    }
  }

  predicate CapReached(p: Plan, now: real) {
    p.dayStart.Some? && now - p.dayStart.value < DAY && p.pingsToday >= p.rules.maxPerDay
  }

  function Jitter(p: Plan): real {
    if p.nextJitter.Some? then p.nextJitter.value else 0.0
  }

  predicate IsDue(p: Plan, now: real, hour: Hour) {
    && !Quiet(p.rules, hour)
    && !CapReached(p, now)
    && (p.lastPingAt == None || now >= p.lastPingAt.value + p.rules.intervalHours * HOUR_SECONDS + Jitter(p))
  }

  predicate NewDay(p: Plan, now: real) {
    p.dayStart == None || now - p.dayStart.value >= DAY
  }

  /** `_record_ping`. */
  function Recorded(p: Plan, now: real, drawn: real): Plan {
    Plan(p.rules, p.enabled, Some(now), if NewDay(p, now) then 1 else p.pingsToday + 1,
         if NewDay(p, now) then Some(now) else p.dayStart, if p.rules.jitterMinutes > 0.0 then Some(drawn) else None)
  }

  predicate Pings(p: Plan, now: real, hour: Hour, a: Answer) {
    p.enabled && IsDue(p, now, hour) && !a.lastIsOurs && a.stored
  }

  /** `_maybe_ping` for one plan. */
  function Tick(p: Plan, now: real, hour: Hour, a: Answer): Plan {
    if Pings(p, now, hour, a) then Recorded(p, now, a.drawn) else p
  }

  // --- the history ------------------------------------------------------------------------------------

  /** The recorded pings, the jitter drawn at each, and the position of the counted day's first. */
  datatype History = History(pings: seq<real>, jitters: seq<real>, day: nat)

  function Grown(h: History, p: Plan, now: real, drawn: real): History {
    History(h.pings + [now], h.jitters + [if p.rules.jitterMinutes > 0.0 then drawn else 0.0],
            if NewDay(p, now) then |h.pings| else h.day)
  }

  /** Each ping keeps its distance from the one before. */
  ghost predicate Apart(h: History, interval: real) {
    && |h.jitters| == |h.pings| && (forall i | 0 <= i < |h.jitters| :: h.jitters[i] >= 0.0)
    && forall i | 0 <= i < |h.pings| - 1 :: h.pings[i + 1] >= h.pings[i] + interval + h.jitters[i]
  }

  ghost predicate NeverQuiet(pings: seq<real>, r: Rules, hour: real -> Hour) {
    forall i | 0 <= i < |pings| :: !Quiet(r, hour(pings[i]))
  }

  /** Pings `n` apart in the list are a day apart in time. */
  ghost predicate DayApart(pings: seq<real>, n: int) {
    forall i, j | 0 <= i <= j < |pings| && i + n <= j :: pings[j] - pings[i] >= DAY
  }

  /** The plan's counters are what the history says: the last ping, and the pings of the counted day,
      which started at least a day after the ping `max` places before its first. */
  ghost predicate Counts(p: Plan, h: History) {
    var n := |h.pings|;
    && (p.lastPingAt == None <==> n == 0) && (p.dayStart == None <==> n == 0)
    && (n > 0 ==>
          && p.lastPingAt == Some(h.pings[n - 1]) && |h.jitters| == n && Jitter(p) == h.jitters[n - 1]
          && h.day < n && p.dayStart == Some(h.pings[h.day]) && p.pingsToday == n - h.day
          && n - h.day <= p.rules.maxPerDay
          && h.pings[n - 1] - h.pings[h.day] < DAY
          && (forall i | 0 <= i <= h.day - p.rules.maxPerDay :: h.pings[h.day] - h.pings[i] >= DAY))
  }

  ghost predicate Inv(p: Plan, h: History, hour: real -> Hour) {
    && Accepted(p.rules)
    && Apart(h, p.rules.intervalHours * HOUR_SECONDS)
    && Sorted(h.pings)
    && NeverQuiet(h.pings, p.rules, hour)
    && DayApart(h.pings, 2 * p.rules.maxPerDay - 1)
    && Counts(p, h)
  }

  lemma GrownApart(h: History, p: Plan, now: real, drawn: real, interval: real)
    requires Apart(h, interval) && Sorted(h.pings) && interval > 0.0 && drawn >= 0.0
    requires |h.pings| > 0 ==> now >= h.pings[|h.pings| - 1] + interval + h.jitters[|h.pings| - 1]
    ensures Apart(Grown(h, p, now, drawn), interval) && Sorted(h.pings + [now])
  {
  }

  lemma GrownDayApart(p: Plan, h: History, now: real)
    requires Counts(p, h) && Sorted(h.pings + [now]) && !CapReached(p, now) && p.rules.maxPerDay >= 1
    requires DayApart(h.pings, 2 * p.rules.maxPerDay - 1)
    ensures DayApart(h.pings + [now], 2 * p.rules.maxPerDay - 1)
  {
    var longer := h.pings + [now];
    var n := |h.pings|;
    forall i | 0 <= i <= n + 1 - 2 * p.rules.maxPerDay && i < n
      ensures now - longer[i] >= DAY
    {
      assert h.pings[i] == longer[i];
      if NewDay(p, now) {
        assert longer[i] <= longer[h.day];
      } else {
        assert i <= h.day - p.rules.maxPerDay;
        assert longer[h.day] <= longer[n];
      }
    }
  }

  lemma GrownCounts(p: Plan, h: History, now: real, drawn: real)
    requires Counts(p, h) && Sorted(h.pings + [now]) && !CapReached(p, now) && p.rules.maxPerDay >= 1
    requires |h.jitters| == |h.pings|
    ensures Counts(Recorded(p, now, drawn), Grown(h, p, now, drawn))
  {
    var longer := h.pings + [now];
    var n := |h.pings|;
    if NewDay(p, now) {
      forall i | 0 <= i <= n - p.rules.maxPerDay
        ensures now - longer[i] >= DAY
      {
        assert longer[i] <= longer[h.day];
      }
    }
  }

  lemma TickKeeps(p: Plan, h: History, now: real, hour: real -> Hour, a: Answer)
    requires Inv(p, h, hour) && a.drawn >= 0.0 && (p.lastPingAt.Some? ==> p.lastPingAt.value <= now)
    ensures var h' := if Pings(p, now, hour(now), a) then Grown(h, p, now, a.drawn) else h;
            Inv(Tick(p, now, hour(now), a), h', hour)
  {
    if Pings(p, now, hour(now), a) {
      var interval := p.rules.intervalHours * HOUR_SECONDS;
      GrownApart(h, p, now, a.drawn, interval);
      GrownDayApart(p, h, now);
      GrownCounts(p, h, now, a.drawn);
    }
  }

  // --- whole runs -----------------------------------------------------------------------------------------

  /** A tick: its time, and what it learns. */
  datatype Moment = Moment(now: real, answer: Answer)

  ghost predicate InOrder(moments: seq<Moment>) {
    && (forall i | 0 <= i < |moments| :: moments[i].answer.drawn >= 0.0)
    && forall i, j | 0 <= i <= j < |moments| :: moments[i].now <= moments[j].now
  }

  function Run(p: Plan, moments: seq<Moment>, hour: real -> Hour): Plan
    decreases |moments|
  {
    if moments == [] then p
    else
      var before := Run(p, moments[..|moments| - 1], hour);
      var m := moments[|moments| - 1];
      Tick(before, m.now, hour(m.now), m.answer)
  }

  function Log(p: Plan, moments: seq<Moment>, hour: real -> Hour): History
    decreases |moments|
  {
    if moments == [] then History([], [], 0)
    else
      var before := Run(p, moments[..|moments| - 1], hour);
      var log := Log(p, moments[..|moments| - 1], hour);
      var m := moments[|moments| - 1];
      if Pings(before, m.now, hour(m.now), m.answer) then Grown(log, before, m.now, m.answer.drawn) else log
  }

  predicate NeverPinged(p: Plan) {
    p.lastPingAt == None && p.dayStart == None && p.nextJitter == None
  }

  /** This ping comes from that tick: an enabled plan that found no message of ours waiting, at that
      tick's time, with the jitter drawn then, or none for a plan without jitter. */
  ghost predicate FromTick(p: Plan, h: History, i: nat, m: Moment)
    requires i < |h.pings|
  {
    && h.pings[i] == m.now && p.enabled && !m.answer.lastIsOurs && m.answer.stored
    && i < |h.jitters| && h.jitters[i] == if p.rules.jitterMinutes > 0.0 then m.answer.drawn else 0.0
  }

  lemma {:induction false} RulesStay(p: Plan, moments: seq<Moment>, hour: real -> Hour)
    ensures Run(p, moments, hour).rules == p.rules && Run(p, moments, hour).enabled == p.enabled
    ensures |Log(p, moments, hour).jitters| == |Log(p, moments, hour).pings|
    decreases |moments|
  {
    if moments != [] {
      RulesStay(p, moments[..|moments| - 1], hour);
    }
  }

  lemma {:induction false} PingsComeFromTicks(p: Plan, moments: seq<Moment>, hour: real -> Hour, i: nat)
    requires i < |Log(p, moments, hour).pings|
    ensures exists k | 0 <= k < |moments| :: FromTick(p, Log(p, moments, hour), i, moments[k])
    decreases |moments|
  {
    var earlier := moments[..|moments| - 1];
    var log := Log(p, earlier, hour);
    RulesStay(p, earlier, hour);
    if i < |log.pings| {
      PingsComeFromTicks(p, earlier, hour, i);
      var k :| 0 <= k < |earlier| && FromTick(p, log, i, earlier[k]);
      assert moments[k] == earlier[k];
    } else {
      assert FromTick(p, Log(p, moments, hour), i, moments[|moments| - 1]);
    }
  }

  lemma {:induction false} RunKeeps(p: Plan, moments: seq<Moment>, hour: real -> Hour)
    requires Accepted(p.rules) && NeverPinged(p) && InOrder(moments)
    ensures var q := Run(p, moments, hour);
            && q.rules == p.rules && Inv(q, Log(p, moments, hour), hour)
            && (q.lastPingAt.Some? ==> moments != [] && q.lastPingAt.value <= moments[|moments| - 1].now)
    decreases |moments|
  {
    if moments != [] {
      var earlier := moments[..|moments| - 1];
      assert InOrder(earlier);
      RunKeeps(p, earlier, hour);
      var m := moments[|moments| - 1];
      TickKeeps(Run(p, earlier, hour), Log(p, earlier, hour), m.now, hour, m.answer);
    }
  }

  /** Over any run with a clock that never goes back: pings keep interval plus drawn jitter apart, none
      falls on the quiet arc, and any `2 * maxPerDay` consecutive ones take at least a day; so a
      half-open day, wherever it starts, holds fewer than `2 * maxPerDay` of them, and a closed one at
      most that many. */
  lemma PingsAreSpaced(p: Plan, moments: seq<Moment>, hour: real -> Hour, start: real)
    requires Accepted(p.rules) && NeverPinged(p) && InOrder(moments)
    ensures var log, n := Log(p, moments, hour), 2 * p.rules.maxPerDay;
            var pings, jitters := log.pings, log.jitters;
            && |jitters| == |pings|
            && (forall i | 0 <= i < |pings| - 1 ::
                  pings[i + 1] >= pings[i] + p.rules.intervalHours * 3600.0 + jitters[i])
            && (forall i | 0 <= i < |pings| :: !Arc(p.rules.quietStart, p.rules.quietEnd, hour(pings[i])))
            && (forall i, j | 0 <= i <= j < |pings| && i + n - 1 <= j :: pings[j] - pings[i] >= 86400.0)
            && |Inside(pings, start, start + 86400.0)| <= n
  {
    RunKeeps(p, moments, hour);
    var log := Log(p, moments, hour);
    forall i | 0 <= i < |log.pings|
      ensures !Arc(p.rules.quietStart, p.rules.quietEnd, hour(log.pings[i]))
    {
      QuietIsAnArc(p.rules, hour(log.pings[i]));
    }
    Stretch(log, p.rules.intervalHours * HOUR_SECONDS, 2 * p.rules.maxPerDay);
    NoIntervalHoldsMore(log.pings, 2 * p.rules.maxPerDay, DAY, start);
  }

  /** One ping further on, the day is strictly over. */
  lemma Stretch(h: History, interval: real, n: int)
    requires Apart(h, interval) && interval > 0.0 && n >= 1 && DayApart(h.pings, n - 1)
    ensures Spaced(h.pings, n, DAY)
  {
    forall i | 0 <= i < |h.pings| - n
      ensures h.pings[i + n] - h.pings[i] > DAY
    {
      var j := i + n - 1;
      assert h.pings[j] - h.pings[i] >= DAY;
      assert h.pings[j + 1] >= h.pings[j] + interval + h.jitters[j];
    }
  }

  /** The stored counters decide exactly what the full history would: a ping goes out if and only if
      the last one is far enough back, the counted day is over or not full, the hour is not on the
      quiet arc, and nothing else forbids it. */
  lemma PingsExactlyWhen(p: Plan, h: History, now: real, hour: real -> Hour, a: Answer)
    requires Inv(p, h, hour)
    ensures var n := |h.pings|;
            Pings(p, now, hour(now), a) <==>
              && p.enabled && !a.lastIsOurs && a.stored && !Arc(p.rules.quietStart, p.rules.quietEnd, hour(now))
              && (n > 0 ==>
                    && now >= h.pings[n - 1] + p.rules.intervalHours * 3600.0 + h.jitters[n - 1]
                    && (now - h.pings[h.day] >= 86400.0 || n - h.day < p.rules.maxPerDay))
  {
    QuietIsAnArc(p.rules, hour(now));
  }

  /** An hourly plan with two pings a day, and ticks at given hours that nothing holds back. */
  function TwoADay(): Plan {
    Plan(Rules(1.0, 0.0, None, None, 2), true, None, 0, None, None)
  }

  function At(hours: real): Moment {
    Moment(hours * HOUR_SECONDS, Answer(false, 0.0, true))
  }

  /** The bound is reached: two pings a day allow three within two hours, around the end of a counted
      day. */
  lemma TwoDaysMeet(hour: real -> Hour)
    ensures Accepted(TwoADay().rules) && NeverPinged(TwoADay())
    ensures InOrder([At(0.0), At(23.0), At(24.0), At(25.0)])
    ensures Log(TwoADay(), [At(0.0), At(23.0), At(24.0), At(25.0)], hour).pings == [0.0, 82800.0, DAY, 90000.0]
  {
    var p, ms := TwoADay(), [At(0.0), At(23.0), At(24.0), At(25.0)];
    assert ms[..1][..0] == [] && ms[..2][..1] == ms[..1] && ms[..3][..2] == ms[..2];
    assert Run(p, ms[..1], hour) == Plan(p.rules, true, Some(0.0), 1, Some(0.0), None);
    assert Run(p, ms[..2], hour) == Plan(p.rules, true, Some(82800.0), 2, Some(0.0), None);
    assert Run(p, ms[..3], hour) == Plan(p.rules, true, Some(DAY), 1, Some(DAY), None);
    assert Log(p, ms[..1], hour).pings == [0.0];
    assert Log(p, ms[..2], hour).pings == [0.0, 82800.0];
    assert Log(p, ms[..3], hour).pings == [0.0, 82800.0, DAY];
  }

  // --- the service ------------------------------------------------------------------------------------------

  class HeartbeatService {
    var plans: seq<Plan>

    constructor (plans: seq<Plan>)
      ensures this.plans == plans
    {
      this.plans := plans;
    }

    /** One tick over all plans, each judged by itself. An answer that was not stored stands for a plan
        whose processing raised; it never keeps the loop from the next plan. */
    method ProcessPlans(now: real, hour: Hour, answers: seq<Answer>) returns (pinged: seq<nat>)
      requires |plans| == |answers|
      modifies this
      ensures |plans| == |answers|
      ensures forall i | 0 <= i < |plans| :: plans[i] == Tick(old(plans)[i], now, hour, answers[i])
      ensures forall i: nat :: i in pinged <==> i < |plans| && Pings(old(plans)[i], now, hour, answers[i])
      ensures forall j, k | 0 <= j < k < |pinged| :: pinged[j] < pinged[k]
    {
      pinged := [];
      ghost var before := plans;
      for i := 0 to |plans|
        invariant |plans| == |before|
        invariant forall j | 0 <= j < i :: plans[j] == Tick(before[j], now, hour, answers[j])
        invariant forall j | i <= j < |before| :: plans[j] == before[j]
        invariant forall j: nat :: j in pinged <==> j < i && Pings(before[j], now, hour, answers[j])
        invariant forall j, k | 0 <= j < k < |pinged| :: pinged[j] < pinged[k]
      {
        assert forall j | 0 <= j < |pinged| :: pinged[j] in pinged;
        if Pings(plans[i], now, hour, answers[i]) {
          plans := plans[i := Recorded(plans[i], now, answers[i].drawn)];
          pinged := pinged + [i];
        }
      }
    }
  }
}
