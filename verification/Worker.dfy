/** The factory worker and its durable report queue. */
module Worker {
  import opened Common

  // From interop/worker.py: a send cannot be taken back, so the report of a finished task is on disk before
  // anyone waits for its acknowledgement.

  datatype Report = Complete(task: int, payload: string) | Fail(task: int, error: string)

  // --- the outside ---------------------------------------------------------------------------------------

  datatype Reply = Accepted | Conflict | Refused(status: Option<int>) | Broken | Interrupted
  datatype Offer = Task(id: int) | NoTask | ClaimFails(status: Option<int>) | ClaimInterrupted
  datatype Outcome = Done(payload: string) | Failed(error: string) | Killed

  /** How `process_once` ends: a value, an exception, or a cancellation. */
  datatype End = Returned(handled: bool) | Raised(status: Option<int>) | Cancelled

  /** Everything the worker does not control, call by call: the factory's replies, the work it
      hands out, what executing it does, and whether a write to disk succeeds. */
  datatype Outside = Outside(reply: nat -> Reply, offer: nat -> Offer, outcome: nat -> Outcome, disk: nat -> bool)

  // --- what happened, and what it adds up to -------------------------------------------------------

  /** `Claimed`, `Executed` and `Asked` mark calls of the outside, `at` which one; `Asked` is a report sent to
      the factory and its reply, `first` right after the report was queued. `Produced` marks a report queued,
      and whether the write of the file succeeded; `Restarted` a new process reading its queue file. */
  datatype Event =
    | Claimed(task: int, at: nat)
    | Executed(task: int, outcome: Outcome, at: nat)
    | Produced(report: Report, stored: bool)
    | Asked(report: Report, reply: Reply, first: bool, at: nat)
    | Acked(report: Report)
    | Dropped(report: Report)
    | Restarted(items: seq<Report>)

  ghost predicate Truthful(outside: Outside, e: Event) {
    match e
    case Claimed(task, at) => outside.offer(at) == Task(task)
    case Executed(_, outcome, at) => outside.outcome(at) == outcome
    case Asked(_, reply, _, at) => outside.reply(at) == reply
    case _ => true
  }

  function After(owed: seq<Report>, e: Event): seq<Report> {
    match e
    case Produced(r, _) => owed + [r]
    case Acked(_) => if owed == [] then [] else owed[1..]
    case Dropped(_) => if owed == [] then [] else owed[1..]
    case Restarted(items) => items
    case _ => owed
  }

  /** The reports still unacknowledged after a trace, oldest first; `start` is what the queue file
      held before it. */
  function Owed(start: seq<Report>, trace: seq<Event>): seq<Report> {
    if trace == [] then start else After(Owed(start, trace[..|trace| - 1]), trace[|trace| - 1])
  }

  function Last(trace: seq<Event>): Option<Event> {
    if trace == [] then None else Some(trace[|trace| - 1])
  }

  /** The report of what executing a task came to. */
  function ReportOf(task: int, outcome: Outcome): Option<Report> {
    match outcome
    case Done(payload) => Some(Complete(task, payload))
    case Failed(error) => Some(Fail(task, error))
    case Killed => None
  }

  /** What has to happen next: a finished task's report is queued, a report on disk is sent, an accepted one
      leaves the queue, and so does a replayed one that conflicts. */
  datatype Duty = Nothing | Queue(report: Report) | Tell(report: Report) | Ack(report: Report) | Drop(report: Report)

  function Due(last: Option<Event>): Duty {
    match last
    case Some(Executed(task, outcome, _)) =>
      (match ReportOf(task, outcome) case Some(r) => Queue(r) case None => Nothing)
    case Some(Produced(r, true)) => Tell(r)
    case Some(Asked(r, Accepted, _, _)) => Ack(r)
    case Some(Asked(r, Conflict, false, _)) => Drop(r)
    case _ => Nothing
  }

  /** What may happen when: work is claimed with nothing owed, executed once claimed, and reported once
      executed; the oldest report owed is sent, a first one only when it is on disk; and it is settled
      exactly as the reply says. */
  ghost predicate Fine(owed: seq<Report>, last: Option<Event>, e: Event) {
    match e
    case Claimed(_, _) => owed == [] && Due(last) == Nothing
    case Executed(task, _, _) => last.Some? && last.value.Claimed? && last.value.task == task
    case Produced(r, _) => owed == [] && Due(last) == Queue(r)
    case Asked(r, _, first, _) =>
      owed != [] && owed[0] == r && Due(last) == if first then Tell(r) else Nothing
    case Acked(r) => owed != [] && owed[0] == r && Due(last) == Ack(r)
    case Dropped(r) => owed != [] && owed[0] == r && Due(last) == Drop(r)
    case Restarted(_) => Due(last) == Nothing
  }

  ghost predicate Orderly(start: seq<Report>, trace: seq<Event>) {
    trace == [] ||
    (var before := trace[..|trace| - 1];
     Orderly(start, before) && Fine(Owed(start, before), Last(before), trace[|trace| - 1]))
  }

  /** Every restart found exactly what was owed. */
  ghost predicate Lossless(start: seq<Report>, trace: seq<Event>) {
    trace == [] || (Lossless(start, trace[..|trace| - 1]) &&
                    (trace[|trace| - 1].Restarted? ==> trace[|trace| - 1].items == Owed(start, trace[..|trace| - 1])))
  }

  /** The reports of all that was executed to an end, in order. */
  function Results(trace: seq<Event>): seq<Report> {
    if trace == [] then []
    else
      var e := trace[|trace| - 1];
      var report := if e.Executed? then ReportOf(e.task, e.outcome) else None;
      Results(trace[..|trace| - 1]) + (if report.Some? then [report.value] else [])
  }

  function Reported(trace: seq<Event>): seq<Report> {
    if trace == [] then []
    else
      var e := trace[|trace| - 1];
      Reported(trace[..|trace| - 1]) + (if e.Produced? then [e.report] else [])
  }

  function Settled(trace: seq<Event>): seq<Report> {
    if trace == [] then []
    else
      var e := trace[|trace| - 1];
      Settled(trace[..|trace| - 1]) + (if e.Acked? || e.Dropped? then [e.report] else [])
  }

  /** Every result is reported, in order, and nothing else is; one may be just about to be. */
  lemma {:induction false} ResultsAreReported(start: seq<Report>, trace: seq<Event>)
    requires Orderly(start, trace)
    ensures var due := Due(Last(trace));
            Results(trace) == Reported(trace) + (if due.Queue? then [due.report] else [])
  {
    if trace != [] {
      var before, e := trace[..|trace| - 1], trace[|trace| - 1];
      ResultsAreReported(start, before);
      var reported := Reported(before);
      assert reported + [] == reported;
      if e.Produced? {
        assert (reported + [e.report]) + [] == reported + [e.report];
      }
    }
  }

  /** Conservation: in the order they were produced, every report is settled or still owed. */
  lemma {:induction false} NothingIsLost(start: seq<Report>, trace: seq<Event>)
    requires Orderly(start, trace) && Lossless(start, trace)
    ensures start + Reported(trace) == Settled(trace) + Owed(start, trace)
  {
    if trace != [] {
      var before, e := trace[..|trace| - 1], trace[|trace| - 1];
      NothingIsLost(start, before);
      var owed, reported, settled := Owed(start, before), Reported(before), Settled(before);
      assert reported + [] == reported && settled + [] == settled;
      if e.Acked? || e.Dropped? {
        assert owed == [e.report] + owed[1..];
        assert settled + ([e.report] + owed[1..]) == (settled + [e.report]) + owed[1..];
      } else if e.Produced? {
        assert start + (reported + [e.report]) == (start + reported) + [e.report];
        assert settled + (owed + [e.report]) == (settled + owed) + [e.report];
      }
    } else {
      assert start + [] == [] + start;
    }
  }

  /** Beyond what the file held at the start, at most one report is ever unacknowledged: no second
      irreversible send is made before the first one's report is settled. */
  lemma {:induction false} OneAtATime(start: seq<Report>, trace: seq<Event>)
    requires Orderly(start, trace) && Lossless(start, trace)
    ensures |Owed(start, trace)| <= if |start| <= 1 then 1 else |start|
  {
    if trace != [] {
      OneAtATime(start, trace[..|trace| - 1]);
    }
  }

  /** A report leaves the queue only right after the factory accepted it, or, replayed, said that it conflicts. */
  lemma {:induction false} SettledByReply(start: seq<Report>, trace: seq<Event>, i: nat)
    requires Orderly(start, trace) && i < |trace| && (trace[i].Acked? || trace[i].Dropped?)
    ensures i > 0 && trace[i - 1].Asked? && trace[i - 1].report == trace[i].report
    ensures trace[i - 1].reply == if trace[i].Acked? then Accepted else Conflict
    decreases |trace|
  {
    if i + 1 < |trace| {
      SettledByReply(start, trace[..|trace| - 1], i);
    }
  }

  lemma Extend(start: seq<Report>, trace: seq<Event>, e: Event)
    ensures Owed(start, trace + [e]) == After(Owed(start, trace), e) && Last(trace + [e]) == Some(e)
    ensures Orderly(start, trace + [e]) <==> Orderly(start, trace) && Fine(Owed(start, trace), Last(trace), e)
    ensures Lossless(start, trace + [e]) <==> Lossless(start, trace) && (e.Restarted? ==> e.items == Owed(start, trace))
  {
    assert (trace + [e])[..|trace|] == trace;
  }

  class Worker {
    const outside: Outside
    ghost const start: seq<Report>
    var now: nat

    // ReportQueue: the list in memory and the file behind it
    var items: seq<Report>
    var file: seq<Report>

    // history: what happened, whether the last write succeeded, whether a process ever ended after one
    // that did not
    ghost var trace: seq<Event>
    ghost var saved: bool
    ghost var risked: bool

    ghost predicate DiskWorks() {
      forall n: nat :: outside.disk(n)
    }

    /** The queue is the trace's debt, in memory always, on disk after every write that succeeds; and
        nothing is lost as long as no process ends after one that did not. */
    ghost predicate Valid() reads this {
      && Orderly(start, trace)
      && (forall i | 0 <= i < |trace| :: Truthful(outside, trace[i]))
      && items == Owed(start, trace)
      && (saved ==> file == items) && (!risked ==> Lossless(start, trace))
      && (DiskWorks() ==> saved && !risked)
    }

    /** Nothing is left undone. */
    ghost predicate Idle() reads this {
      Due(Last(trace)) == Nothing
    }

    /** A new process over a queue file: a missing one reads as empty, and one that cannot be read
        is set aside, with whatever it held. */
    constructor (outside: Outside, found: seq<Report>, readable: bool)
      ensures Valid() && Idle() && this.outside == outside && trace == [] && file == start && saved && !risked
      ensures start == if readable then found else []
    {
      this.outside := outside;
      start := if readable then found else [];
      items := if readable then found else [];
      file := if readable then found else [];
      now, trace, saved, risked := 0, [], true, false;
    }

    /** `ReportQueue._save`: the whole list replaces the file, or the write fails. */
    method Save() returns (ok: bool)
      modifies this`file, this`now, this`saved
      ensures ok ==> file == items
      ensures !ok ==> file == old(file)
      ensures DiskWorks() ==> ok
      ensures saved == ok
    {
      ok := outside.disk(now);
      saved := ok;
      now := now + 1;
      if ok {
        file := items;
      }
    }

    /** `add`, right after `_execute` returned. */
    method Add(report: Report) returns (ok: bool)
      requires Valid() && items == [] && Due(Last(trace)) == Queue(report)
      modifies this
      ensures Valid() && trace == old(trace) + [Produced(report, ok)] && items == [report]
      ensures DiskWorks() ==> ok
      ensures saved == ok && risked == old(risked)
    {
      items := items + [report];
      ok := Save();
      Extend(start, trace, Produced(report, ok));
      trace := trace + [Produced(report, ok)];
    }

    /** `ack`: the oldest item goes. It is the one just added, or the one just replayed. */
    method Ack(dropped: bool) returns (ok: bool)
      requires Valid() && items != []
      requires Due(Last(trace)) == if dropped then Drop(items[0]) else Duty.Ack(items[0])
      modifies this
      ensures Valid() && Idle() && items == old(items)[1..]
      ensures trace == old(trace) + [if dropped then Dropped(old(items)[0]) else Acked(old(items)[0])]
      ensures DiskWorks() ==> ok
      ensures saved == ok && risked == old(risked)
    {
      var e := if dropped then Dropped(items[0]) else Acked(items[0]);
      Extend(start, trace, e);
      items := items[1..];
      trace := trace + [e];
      ok := Save();
    }

    /** Something that leaves the queue as it is happens. */
    ghost method Note(e: Event)
      requires Valid() && Fine(items, Last(trace), e) && Truthful(outside, e)
      requires After(items, e) == items && !e.Restarted?
      modifies this`trace
      ensures Valid() && trace == old(trace) + [e]
      ensures Last(trace) == Some(e)
    {
      Extend(start, trace, e);
      trace := trace + [e];
    }

    /** The oldest report is sent to the factory. */
    method Ask(ghost first: bool) returns (reply: Reply)
      requires Valid() && items != [] && Due(Last(trace)) == if first then Tell(items[0]) else Nothing
      modifies this`now, this`trace
      ensures Valid() && now == old(now) + 1 && reply == outside.reply(old(now))
      ensures trace == old(trace) + [Asked(items[0], reply, first, old(now))]
    {
      reply := outside.reply(now);
      Note(Asked(items[0], reply, first, now));
      now := now + 1;
    }

    /** The last report sent got this reply. */
    ghost predicate LastReply(reply: Reply) reads this {
      Last(trace).Some? && Last(trace).value.Asked? && Last(trace).value.reply == reply
    }

    /** Why `_flush_reports` may give up: an unsuccessful reply, or a file that cannot be written. */
    ghost predicate GaveUp(raised: Option<End>) reads this {
      match raised
      case None => LastReply(Broken)
      case Some(Returned(_)) => false
      case Some(Raised(status)) => LastReply(Refused(status)) || (status == None && !saved)
      case Some(Cancelled) => LastReply(Interrupted)
    }

    /** One turn of `_flush_reports`. */
    method ReplayOldest() returns (stop: bool, raised: Option<End>)
      requires Valid() && Idle() && items != []
      modifies this
      ensures Valid() && Idle() && old(trace) < trace && risked == old(risked)
      ensures if stop then GaveUp(raised) && (raised == None ==> items != []) else items == old(items)[1..]
      ensures forall i | |old(trace)| <= i < |trace| :: trace[i].Asked? || trace[i].Acked? || trace[i].Dropped?
    {
      var reply := Ask(false);
      match reply {
        case Accepted =>
          var ok := Ack(false);
          return !ok, if ok then None else Some(Raised(None));
        case Conflict =>
          var ok := Ack(true);
          return !ok, if ok then None else Some(Raised(None));
        case Refused(status) => return true, Some(Raised(status));
        case Broken => return true, None;
        case Interrupted => return true, Some(Cancelled);
      }
    }

    /** `_flush_reports`; None when it simply returns, an End when it raises or is cancelled. */
    method FlushReports() returns (drained: bool, raised: Option<End>)
      requires Valid() && Idle()
      modifies this
      ensures Valid() && Idle() && old(trace) <= trace && risked == old(risked)
      ensures drained ==> items == [] && raised == None
      ensures !drained ==> GaveUp(raised) && (raised == None ==> items != [])
      ensures forall i | |old(trace)| <= i < |trace| :: trace[i].Asked? || trace[i].Acked? || trace[i].Dropped?
    {
      while items != []
        invariant Valid() && Idle() && old(trace) <= trace && risked == old(risked)
        invariant forall i | |old(trace)| <= i < |trace| :: trace[i].Asked? || trace[i].Acked? || trace[i].Dropped?
        decreases |items|
      {
        var stop;
        stop, raised := ReplayOldest();
        if stop {
          return false, raised;
        }
      }
      return true, None;
    }

    /** `_safe_complete_task` and `_safe_fail_task`: on disk first, then the factory is told. */
    method ReportSafely(report: Report) returns (end: End)
      requires Valid() && items == [] && Due(Last(trace)) == Queue(report)
      modifies this
      ensures Valid() && Idle() && old(trace) < trace
      ensures trace[|old(trace)|].Produced? && trace[|old(trace)|].report == report
      ensures risked == old(risked)
      ensures match end
              case Returned(handled) => handled && trace[|old(trace)|].stored && |trace| > |old(trace)| + 1
              case Raised(status) => status == None && !saved
              case Cancelled => LastReply(Interrupted)
      ensures items == [] || items == [report]
    {
      var ok := Add(report);
      if !ok {
        return Raised(None);
      }
      var reply := Ask(true);
      if reply == Accepted {
        var done := Ack(false);
        if !done {
          return Raised(None);
        }
      } else if reply == Interrupted {
        return Cancelled;
      }
      return Returned(true);
    }

    ghost predicate WorkedSince(n: nat) reads this {
      exists i :: n <= i < |trace| && trace[i].Executed? && !trace[i].outcome.Killed?
    }

    /** One step. It says that it handled a task exactly if one was executed to an end and its report queued
        and sent, and that it did not only if a report is stuck or the factory has no task. */
    method ProcessOnce() returns (end: End)
      requires Valid() && Idle()
      modifies this
      ensures Valid() && Idle() && old(trace) <= trace && risked == old(risked)
      ensures end == Returned(true) ==> WorkedSince(|old(trace)|)
      ensures WorkedSince(|old(trace)|) ==> end == Returned(true) || (end == Raised(None) && !saved)
                                                || LastReply(Interrupted)
      ensures end == Returned(false) ==>
                if items != [] then LastReply(Broken) else now > 0 && outside.offer(now - 1) == NoTask
      ensures end.Raised? ==>
                || LastReply(Refused(end.status)) || (end.status == None && !saved)
                || (now > 0 && outside.offer(now - 1) == ClaimFails(end.status))
      ensures end.Cancelled? ==>
                || LastReply(Interrupted) || (now > 0 && outside.offer(now - 1) == ClaimInterrupted)
                || (Last(trace).Some? && Last(trace).value.Executed? && Last(trace).value.outcome.Killed?)
    {
      var drained, raised := FlushReports();
      if raised.Some? {
        return raised.value;
      }
      if !drained {
        return Returned(false);
      }
      var offer := outside.offer(now);
      now := now + 1;
      match offer {
        case NoTask => return Returned(false);
        case ClaimFails(status) => return Raised(status);
        case ClaimInterrupted => return Cancelled;
        case Task(id) => end := Work(id);
      }
    }

    /** `_execute` for a task just claimed. */
    method Execute(id: int) returns (outcome: Outcome)
      requires Valid() && Idle() && items == [] && now > 0 && outside.offer(now - 1) == Task(id)
      modifies this`now, this`trace
      ensures Valid() && outcome == outside.outcome(old(now))
      ensures trace == old(trace) + [Claimed(id, old(now) - 1), Executed(id, outcome, old(now))]
    {
      Note(Claimed(id, now - 1));
      outcome := outside.outcome(now);
      Note(Executed(id, outcome, now));
      now := now + 1;
    }

    /** A claimed task is executed, and what it came to is reported. */
    method Work(id: int) returns (end: End)
      requires Valid() && Idle() && items == [] && now > 0 && outside.offer(now - 1) == Task(id)
      modifies this
      ensures Valid() && Idle() && old(trace) + [Claimed(id, old(now) - 1)] < trace && risked == old(risked)
      ensures var e := trace[|old(trace)| + 1]; e.Executed? && e.task == id
      ensures if trace[|old(trace)| + 1].outcome.Killed? then end == Cancelled && |trace| == |old(trace)| + 2
              else
                || end == Returned(true) || (end == Raised(None) && !saved)
                || (end == Cancelled && LastReply(Interrupted))
    {
      var outcome := Execute(id);
      match outcome {
        case Killed => return Cancelled;
        case Done(payload) => end := ReportSafely(Complete(id, payload));
        case Failed(error) => end := ReportSafely(Fail(id, error));
      }
    }

    /** The process ends and a new one reads the same file: nothing is lost exactly if the file was in step
        with the list in memory, as it is after a last write that succeeded. */
    method Restart()
      requires Valid() && Idle()
      modifies this
      ensures Valid() && Idle() && trace == old(trace) + [Restarted(items)] && items == file == old(file)
      ensures Lossless(start, trace) <==> old(Lossless(start, trace)) && old(file == items)
      ensures saved && (risked <==> old(risked) || !old(saved))
    {
      Extend(start, trace, Restarted(file));
      risked := risked || !saved;
      items := file;
      trace := trace + [Restarted(items)];
      saved := true;
    }

    /** Any life of the worker: rounds of `run`, each possibly cut short by an exception or a
        cancellation and followed by a restart of the process. As long as no process ended after a failed
        write, what was executed to an end is settled or its report is still held, on disk too once a write
        has succeeded. */
    method Live(rounds: nat, restarts: nat -> bool)
      requires Valid() && Idle()
      modifies this
      ensures Valid() && old(trace) <= trace
      ensures !risked ==> Lossless(start, trace)
      ensures Lossless(start, trace) ==>
                && start + Results(trace) == Settled(trace) + items
                && |items| <= if |start| <= 1 then 1 else |start|
      ensures saved ==> file == items
      ensures DiskWorks() ==> saved && !risked
    {
      for i := 0 to rounds
        invariant Valid() && Idle() && old(trace) <= trace
      {
        var end := ProcessOnce();
        if restarts(i) || end == Cancelled || (end.Raised? && end.status.Some? && end.status.value < 500) {
          Restart();
        }
      }
      ResultsAreReported(start, trace);
      assert Reported(trace) + [] == Reported(trace);
      if Lossless(start, trace) {
        NothingIsLost(start, trace);
        OneAtATime(start, trace);
      }
    }
  }
}
