/** The event bus (core/events.py): every subscriber has its own bounded queue, and a full queue gives
    up its oldest event. What a subscriber receives is compared with the full list of what was published
    since it registered. */
module EventFanOut {
  import opened Common

  type Event = nat
  type Subscriber = nat

  predicate Full(queue: seq<Event>, maxsize: int) {
    0 < maxsize <= |queue|
  }

  /** What publishing does to one queue. */
  function Offered(queue: seq<Event>, maxsize: int, event: Event): seq<Event> {
    (if Full(queue, maxsize) then queue[1..] else queue) + [event]
  }

  /** One subscription: its queue, everything published since it registered, and the positions in that
      list of the events it has received. */
  datatype Feed = Feed(queue: seq<Event>, log: seq<Event>, taken: seq<nat>)

  datatype Step = Publish(event: Event) | Take

  function Do(f: Feed, maxsize: int, a: Step): Feed {
    match a
    case Publish(event) => Feed(Offered(f.queue, maxsize, event), f.log + [event], f.taken)
    case Take =>
      if f.queue == [] || |f.log| < |f.queue| then f
      else Feed(f.queue[1..], f.log, f.taken + [|f.log| - |f.queue|])
  }

  function Run(f: Feed, maxsize: int, steps: seq<Step>): Feed
    decreases |steps|
  {
    if steps == [] then f else Run(Do(f, maxsize, steps[0]), maxsize, steps[1..])
  }

  /** The queue is the newest part of what was published; the events received come before it, in order
      and each once; and whatever was neither received nor is still queued was pushed out by at least
      `maxsize` later events. */
  ghost predicate Inv(f: Feed, maxsize: int) {
    var gone := |f.log| - |f.queue|;
    && 0 <= gone && f.queue == f.log[gone..]
    && (maxsize > 0 ==> |f.queue| <= maxsize)
    && (forall i | 0 <= i < |f.taken| :: f.taken[i] < gone)
    && (forall i, j | 0 <= i < j < |f.taken| :: f.taken[i] < f.taken[j])
    && (forall p | 0 <= p < gone && p !in f.taken :: 0 < maxsize && p + maxsize < |f.log|)
  }

  lemma TakeKeeps(f: Feed, maxsize: int)
    requires Inv(f, maxsize)
    ensures Inv(Do(f, maxsize, Take), maxsize)
  {
    if f.queue != [] {
      var gone := |f.log| - |f.queue|;
      var t := f.taken + [gone];
      assert t[|f.taken|] == gone && gone in t;
      assert forall p | p in f.taken :: p in t;
    }
  }

  lemma PublishKeeps(f: Feed, maxsize: int, event: Event)
    requires Inv(f, maxsize)
    ensures Inv(Do(f, maxsize, Publish(event)), maxsize)
  {
    var gone := |f.log| - |f.queue|;
    var g := Do(f, maxsize, Publish(event));
    if Full(f.queue, maxsize) {
      assert gone !in f.taken;
      assert g.queue == g.log[gone + 1..];
    } else {
      assert g.queue == g.log[gone..];
    }
  }

  lemma {:induction false} RunKeeps(f: Feed, maxsize: int, steps: seq<Step>)
    requires Inv(f, maxsize)
    ensures Inv(Run(f, maxsize, steps), maxsize)
    decreases |steps|
  {
    if steps != [] {
      match steps[0] {
        case Publish(event) => PublishKeeps(f, maxsize, event);
        case Take => TakeKeeps(f, maxsize);
      }
      RunKeeps(Do(f, maxsize, steps[0]), maxsize, steps[1..]);
    }
  }

  function Published(steps: seq<Step>): seq<Event> {
    if steps == [] then [] else (if steps[0].Publish? then [steps[0].event] else []) + Published(steps[1..])
  }

  lemma {:induction false} LogIsWhatWasPublished(f: Feed, maxsize: int, steps: seq<Step>)
    ensures Run(f, maxsize, steps).log == f.log + Published(steps)
    decreases |steps|
  {
    if steps == [] {
      assert f.log + [] == f.log;
    } else {
      LogIsWhatWasPublished(Do(f, maxsize, steps[0]), maxsize, steps[1..]);
      assert f.log + ((if steps[0].Publish? then [steps[0].event] else []) + Published(steps[1..]))
          == (f.log + (if steps[0].Publish? then [steps[0].event] else [])) + Published(steps[1..]);
    }
  }

  const NEW := Feed([], [], [])

  /** What the invariant says of one position of the log. */
  lemma MissedIsOld(f: Feed, maxsize: int, p: nat)
    requires Inv(f, maxsize) && p < |f.log| && p !in f.taken
    ensures || (p >= |f.log| - |f.queue| && f.queue[p - (|f.log| - |f.queue|)] == f.log[p])
            || (0 < maxsize && p + maxsize < |f.log|)
  {
  }

  /** For every mix of publishing and receiving: a subscriber gets what was published after it
      registered, in order and without repeats, and misses an event only when at least `maxsize` later
      ones were published before it came to receive it. Without a bound it misses none. */
  lemma SubscribersMissOnlyWhatOverflowed(maxsize: int, steps: seq<Step>, p: nat)
    ensures var f := Run(NEW, maxsize, steps);
            && f.log == Published(steps) && Inv(f, maxsize)
            && (p < |f.log| && p !in f.taken ==>
                  || (p >= |f.log| - |f.queue| && f.queue[p - (|f.log| - |f.queue|)] == f.log[p])
                  || (0 < maxsize && p + maxsize < |f.log|))
  {
    RunFromNew(NEW, maxsize, steps);
    var f := Run(NEW, maxsize, steps);
    if p < |f.log| && p !in f.taken {
      MissedIsOld(f, maxsize, p);
    }
  }

  lemma RunFromNew(start: Feed, maxsize: int, steps: seq<Step>)
    requires start == NEW
    ensures Inv(Run(start, maxsize, steps), maxsize) && Run(start, maxsize, steps).log == Published(steps)
  {
    RunKeeps(start, maxsize, steps);
    LogIsWhatWasPublished(start, maxsize, steps);
    assert [] + Published(steps) == Published(steps);
  }

  // --- the object ------------------------------------------------------------------------------------------

  /** The subscriptions out of order; there are none. */
  ghost function Broken(feeds: map<Subscriber, Feed>, maxsize: int): set<Subscriber> {
    set q | q in feeds && !Inv(feeds[q], maxsize)
  }

  ghost function AllDo(feeds: map<Subscriber, Feed>, maxsize: int, a: Step): map<Subscriber, Feed> {
    map q | q in feeds :: Do(feeds[q], maxsize, a)
  }

  lemma PublishAllKeeps(feeds: map<Subscriber, Feed>, maxsize: int, event: Event)
    requires Broken(feeds, maxsize) == {}
    ensures Broken(AllDo(feeds, maxsize, Publish(event)), maxsize) == {}
  {
    forall q | q in feeds
      ensures Inv(Do(feeds[q], maxsize, Publish(event)), maxsize)
    {
      assert q !in Broken(feeds, maxsize);
      PublishKeeps(feeds[q], maxsize, event);
    }
  }

  lemma TakeOneKeeps(feeds: map<Subscriber, Feed>, maxsize: int, q: Subscriber)
    requires Broken(feeds, maxsize) == {} && q in feeds
    ensures Broken(feeds[q := Do(feeds[q], maxsize, Take)], maxsize) == {}
    ensures Do(feeds[q], maxsize, Take).queue == if feeds[q].queue == [] then [] else feeds[q].queue[1..]
  {
    assert q !in Broken(feeds, maxsize);
    TakeKeeps(feeds[q], maxsize);
    forall k | k in feeds && k != q
      ensures Inv(feeds[k], maxsize)
    {
      assert k !in Broken(feeds, maxsize);
    }
  }

  class EventBus {
    const maxsize: int
    var queues: map<Subscriber, seq<Event>>
    ghost var feeds: map<Subscriber, Feed>

    ghost predicate Valid() reads this {
      && feeds.Keys == queues.Keys
      && (forall q | q in feeds :: feeds[q].queue == queues[q])
      && Broken(feeds, maxsize) == {}
    }

    constructor (maxsize: int)
      ensures Valid() && this.maxsize == maxsize && queues == map[]
    {
      this.maxsize, queues, feeds := maxsize, map[], map[];
    }

    method Register(q: Subscriber)
      requires Valid() && q !in queues
      modifies this
      ensures Valid() && queues == old(queues)[q := []] && feeds == old(feeds)[q := NEW]
    {
      queues, feeds := queues[q := []], feeds[q := NEW];
    }

    method Unregister(q: Subscriber)
      requires Valid()
      modifies this
      ensures Valid() && queues == old(queues) - {q} && feeds == old(feeds) - {q}
    {
      queues, feeds := queues - {q}, feeds - {q};
    }

    /** The loop over the set of queues, in no particular order. */
    method OfferToAll(event: Event)
      modifies this`queues
      ensures queues == map q | q in old(queues) :: Offered(old(queues)[q], maxsize, event)
    {
      var todo := queues.Keys;
      while todo != {}
        invariant todo <= queues.Keys == old(queues).Keys
        invariant forall q | q in queues ::
                    queues[q] == if q in todo then old(queues)[q] else Offered(old(queues)[q], maxsize, event)
      {
        var q: Subscriber :| q in todo;
        var queue := queues[q];
        if Full(queue, maxsize) {
          queue := queue[1..];
        }
        queues := queues[q := queue + [event]];
        todo := todo - {q};
      }
    }

    method PublishEvent(event: Event)
      requires Valid()
      modifies this
      ensures Valid()
      ensures feeds == AllDo(old(feeds), maxsize, Publish(event))
    {
      PublishAllKeeps(feeds, maxsize, event);
      OfferToAll(event);
      feeds := AllDo(feeds, maxsize, Publish(event));
    }

    /** One `queue.get()`; on an empty queue the subscriber waits. */
    method Receive(q: Subscriber) returns (event: Option<Event>)
      requires Valid() && q in queues
      modifies this
      ensures Valid() && feeds == old(feeds)[q := Do(old(feeds)[q], maxsize, Take)]
      ensures event == if old(queues)[q] == [] then None else Some(old(queues)[q][0])
    {
      TakeOneKeeps(feeds, maxsize, q);
      if queues[q] == [] {
        event := None;
      } else {
        event := Some(queues[q][0]);
        queues := queues[q := queues[q][1..]];
      }
      feeds := feeds[q := Do(feeds[q], maxsize, Take)];
    }
  }
}
