/**
 The condition variable of src/common/threadpool.c: any number of workers and producers, whose critical
 sections are the atomic steps.
 */
module Wakeups {
  import opened Prelude
  import opened TaskQueue

  type Worker = nat

  /**
   Where the workers stand. A woken worker has left its wait and has yet to look at the queue again; a
   running one is outside the queue. A stopped worker has seen the end of the queue; one that is gone has left its
   loop without another look, because the server is no longer running. `accepted` and `popped` record the items so far, in order.
   */
  datatype State<T> = State(
    queue: Fifo<T>,
    running: set<Worker>,
    asleep: set<Worker>,
    woken: set<Worker>,
    stopped: set<Worker>,
    gone: set<Worker>,
    accepted: seq<T>,
    popped: seq<T>)

  datatype Event<T> =
    /** `tpq_push`. A signal wakes at least one sleeper, if there is one, and may wake more. */
    | Pushes(item: T, wakes: set<Worker>)
    /** A worker calls `tpq_pop`, or one that was woken looks again. */
    | Looks(worker: Worker)
    /** A sleeper wakes up for no reason. */
    | WakesUp(worker: Worker)
    /** A worker leaves its loop. */
    | Leaves(worker: Worker)
    /** `tpq_shutdown`: the broadcast wakes every sleeper. */
    | ShutsDown

  ghost predicate Enabled<T>(s: State<T>, e: Event<T>) {
    match e
    case Pushes(_, wakes) =>
      if Accepts(s.queue) then wakes <= s.asleep && (s.asleep != {} ==> wakes != {}) else wakes == {}
    case Looks(w) => w in s.running || w in s.woken
    case WakesUp(w) => w in s.asleep
    case Leaves(w) => w in s.running
    case ShutsDown => true
  }

  ghost function Next<T>(s: State<T>, e: Event<T>): State<T> {
    match e
    case Pushes(x, wakes) =>
      if Accepts(s.queue) then
        s.(queue := Push(s.queue, x), asleep := s.asleep - wakes, woken := s.woken + wakes, accepted := s.accepted + [x])
      else s
    case Looks(w) =>
      var t := s.(running := s.running - {w}, woken := s.woken - {w});
      (match Pop(s.queue).1
       case Got(x) => t.(queue := Pop(s.queue).0, running := t.running + {w}, popped := s.popped + [x])
       case Wait => t.(asleep := s.asleep + {w})
       case End => t.(stopped := s.stopped + {w}))
    case WakesUp(w) => s.(asleep := s.asleep - {w}, woken := s.woken + {w})
    case Leaves(w) => s.(running := s.running - {w}, gone := s.gone + {w})
    case ShutsDown => s.(queue := s.queue.(shutdown := true), asleep := {}, woken := s.woken + s.asleep)
  }

  ghost predicate Initial<T>(s: State<T>) {
    && s.queue.items == [] && !s.queue.shutdown && s.asleep == {} && s.woken == {} && s.stopped == {} && s.gone == {}
    && s.accepted == [] && s.popped == []
  }

  ghost predicate IsRun<T>(s: State<T>, events: seq<Event<T>>)
    decreases |events|
  {
    |events| > 0 ==> Enabled(s, events[0]) && IsRun(Next(s, events[0]), events[1..])
  }

  ghost function After<T>(s: State<T>, events: seq<Event<T>>): State<T>
    decreases |events|
  {
    if |events| == 0 then s else After(Next(s, events[0]), events[1..])
  }

  /** Nobody oversleeps: beside a sleeper, every queued item has a woken worker on its way to it. */
  ghost predicate NobodyOversleeps<T>(s: State<T>) {
    && (s.asleep != {} ==> |s.queue.items| <= |s.woken|)
    && (s.queue.shutdown ==> s.asleep == {})
    && (s.stopped != {} ==> s.queue.shutdown && s.queue.items == [])
  }

  ghost predicate Apart<T>(s: State<T>) {
    s.running !! s.asleep !! s.woken
  }

  ghost predicate Inv<T>(s: State<T>) {
    && Apart(s) && NobodyOversleeps(s)
    && |s.queue.items| <= s.queue.capacity
    && s.accepted == s.popped + s.queue.items
  }

  lemma PushKeepsInv<T>(s: State<T>, x: T, wakes: set<Worker>)
    requires Inv(s) && Enabled(s, Pushes(x, wakes))
    ensures Inv(Next(s, Pushes(x, wakes)))
  {
    if Accepts(s.queue) {
      assert s.popped + (s.queue.items + [x]) == (s.popped + s.queue.items) + [x];
      assert |s.woken + wakes| == |s.woken| + |wakes|;
      if s.asleep != {} {
        assert |wakes| >= 1;
      }
    }
  }

  lemma LookKeepsApart<T>(s: State<T>, w: Worker)
    requires Apart(s) && Enabled(s, Looks(w))
    ensures Apart(Next(s, Looks(w)))
  {
    hide Pop;
  }

  lemma LookCounts<T>(s: State<T>, w: Worker)
    requires NobodyOversleeps(s) && Enabled(s, Looks(w)) && w !in s.asleep
    ensures NobodyOversleeps(Next(s, Looks(w)))
  {
    assert |s.woken - {w}| >= |s.woken| - 1;
  }

  lemma LookKeepsOrder<T>(s: State<T>, w: Worker)
    requires s.accepted == s.popped + s.queue.items
    ensures var t := Next(s, Looks(w)); t.accepted == t.popped + t.queue.items
  {
    if |s.queue.items| > 0 {
      assert s.queue.items == [s.queue.items[0]] + s.queue.items[1..];
      assert (s.popped + [s.queue.items[0]]) + s.queue.items[1..] == s.popped + s.queue.items;
    }
  }

  lemma LookKeepsInv<T>(s: State<T>, w: Worker)
    requires Inv(s) && Enabled(s, Looks(w))
    ensures Inv(Next(s, Looks(w)))
  {
    LookKeepsApart(s, w);
    LookKeepsOrder(s, w);
    assert w !in s.asleep;
    LookCounts(s, w);
    hide Apart, NobodyOversleeps;
  }

  lemma WakeKeepsInv<T>(s: State<T>, w: Worker)
    requires Inv(s) && Enabled(s, WakesUp(w))
    ensures Inv(Next(s, WakesUp(w)))
  {
    assert |s.woken + {w}| >= |s.woken|;
  }

  lemma OtherKeepsInv<T>(s: State<T>, e: Event<T>)
    requires Inv(s) && Enabled(s, e) && (e.Leaves? || e.ShutsDown?)
    ensures Inv(Next(s, e))
  {
  }

  lemma StepKeepsInv<T>(s: State<T>, e: Event<T>)
    requires Inv(s) && Enabled(s, e)
    ensures Inv(Next(s, e))
  {
    hide Inv, Enabled, Next;
    match e {
      case Pushes(x, wakes) => PushKeepsInv(s, x, wakes);
      case Looks(w) => LookKeepsInv(s, w);
      case WakesUp(w) => WakeKeepsInv(s, w);
      case _ => OtherKeepsInv(s, e);
    }
  }

  lemma {:induction false} RunsKeepInv<T>(s: State<T>, events: seq<Event<T>>)
    requires Inv(s) && IsRun(s, events)
    ensures Inv(After(s, events))
    decreases |events|
  {
    hide Inv, Next, Enabled;
    if |events| > 0 {
      StepKeepsInv(s, events[0]);
      RunsKeepInv(Next(s, events[0]), events[1..]);
    }
  }

  /**
   No lost wakeup: in every reachable state, a sleeper next to queued items means that as many workers are
   awake and on their way; after a shutdown nobody sleeps; and an item is stranded only when every worker has left
   its loop.
   */
  lemma NoLostWakeup<T>(s: State<T>, events: seq<Event<T>>)
    requires Initial(s) && IsRun(s, events)
    ensures var t := After(s, events);
      && (t.asleep != {} ==> |t.queue.items| <= |t.woken|)
      && (t.queue.shutdown ==> t.asleep == {})
      && (t.queue.items != [] && t.running == {} && t.woken == {} ==> t.asleep == {} && t.stopped == {})
  {
    hide IsRun, After;
    RunsKeepInv(s, events);
    var t := After(s, events);
    if |t.queue.items| > 0 && t.asleep != {} {
      assert t.woken != {};
    }
  }

  /** The items come out in the order in which they were accepted, each of them once, and none is lost. */
  lemma FirstInFirstOut<T>(s: State<T>, events: seq<Event<T>>)
    requires Initial(s) && IsRun(s, events)
    ensures var t := After(s, events); t.accepted == t.popped + t.queue.items
    ensures |After(s, events).queue.items| <= After(s, events).queue.capacity
  {
    hide IsRun, After;
    RunsKeepInv(s, events);
  }

  /** When a worker has seen the end, everything accepted has been popped. */
  lemma StoppedMeansDrained<T>(s: State<T>, events: seq<Event<T>>)
    requires Initial(s) && IsRun(s, events) && After(s, events).stopped != {}
    ensures After(s, events).popped == After(s, events).accepted
  {
    hide IsRun, After;
    RunsKeepInv(s, events);
    var t := After(s, events);
    assert t.popped + [] == t.popped;
  }

  /** After a shutdown nothing more is accepted, however the run goes on; the queue only drains, in order. */
  lemma {:induction false} ShutdownOnlyDrains<T>(s: State<T>, events: seq<Event<T>>)
    requires Inv(s) && s.queue.shutdown && IsRun(s, events)
    ensures var t := After(s, events);
      && t.queue.shutdown && t.asleep == {} && t.accepted == s.accepted
      && IsSuffix(t.queue.items, s.queue.items)
    decreases |events|
  {
    hide Inv, Next, Enabled;
    var xs := s.queue.items;
    if |events| > 0 {
      var next := Next(s, events[0]);
      StepKeepsInv(s, events[0]);
      ShutdownStep(s, events[0]);
      ShutdownOnlyDrains(next, events[1..]);
      SuffixOfSuffix(xs, next.queue.items, After(next, events[1..]).queue.items);
    } else {
      AwakeAfterShutdown(s);
    }
  }

  lemma AwakeAfterShutdown<T>(s: State<T>)
    requires Inv(s) && s.queue.shutdown
    ensures s.asleep == {}
  {
  }

  lemma ShutdownStep<T>(s: State<T>, e: Event<T>)
    requires Inv(s) && s.queue.shutdown && Enabled(s, e)
    ensures var t := Next(s, e);
      t.queue.shutdown && t.accepted == s.accepted && IsSuffix(t.queue.items, s.queue.items)
  {
    hide Apart, NobodyOversleeps;
  }

  ghost predicate IsSuffix<T>(t: seq<T>, s: seq<T>) {
    |t| <= |s| && t == s[|s| - |t|..]
  }

  lemma SuffixOfSuffix<T>(s: seq<T>, t: seq<T>, u: seq<T>)
    requires IsSuffix(t, s) && IsSuffix(u, t)
    ensures IsSuffix(u, s)
  {
  }

  // ---- How long the end takes ----

  /** The number of looks, and of workers that leave, in a run. */
  function Ends<T>(events: seq<Event<T>>): nat {
    if |events| == 0 then 0 else (if events[0].Looks? || events[0].Leaves? then 1 else 0) + Ends(events[1..])
  }

  /** What is left to do after a shutdown: every queued item is to be popped, every worker to stop. */
  ghost function ToDo<T>(s: State<T>): nat {
    |s.queue.items| + |s.running + s.woken|
  }

  lemma EndStep<T>(s: State<T>, e: Event<T>)
    requires Inv(s) && s.queue.shutdown && Enabled(s, e)
    ensures Next(s, e).queue.shutdown
    ensures ToDo(Next(s, e)) == ToDo(s) - if e.Looks? || e.Leaves? then 1 else 0
  {
    hide Apart;
    match e {
      case Looks(w) => LookEnds(s, w);
      case Leaves(w) => LeaveEnds(s, w);
      case Pushes(_, _) =>
      case WakesUp(_) =>
      case ShutsDown =>
        assert s.woken + {} == s.woken;
    }
  }

  lemma LeaveEnds<T>(s: State<T>, w: Worker)
    requires Apart(s) && w in s.running
    ensures ToDo(Next(s, Leaves(w))) == ToDo(s) - 1
  {
    assert (s.running - {w}) + s.woken == (s.running + s.woken) - {w};
  }

  lemma LookEnds<T>(s: State<T>, w: Worker)
    requires Apart(s) && s.queue.shutdown && (w in s.running || w in s.woken)
    ensures Next(s, Looks(w)).queue.shutdown && ToDo(Next(s, Looks(w))) == ToDo(s) - 1
  {
    var t := Next(s, Looks(w));
    if |s.queue.items| > 0 {
      assert t.running + t.woken == s.running + s.woken;
    } else {
      assert t.running + t.woken == (s.running + s.woken) - {w};
    }
  }

  /**
   After a shutdown every look of a worker pops an item or stops the worker for good: in any continuation the looks
   and departures so far, and what is left to do, add up to what was to do at the start. So there are never more
   of them than queued items and workers, and when there have been as many, the queue is empty and nobody is left.
   */
  lemma {:induction false} EndsInTime<T>(s: State<T>, events: seq<Event<T>>)
    requires Inv(s) && s.queue.shutdown && IsRun(s, events)
    ensures var t := After(s, events);
      && Ends(events) + ToDo(t) == ToDo(s)
      && (Ends(events) == ToDo(s) <==> t.queue.items == [] && t.running == {} && t.woken == {})
    decreases |events|
  {
    hide Inv, Next, Enabled;
    if |events| == 0 {
      NothingToDo(s);
    } else {
      hide ToDo;
      StepKeepsInv(s, events[0]);
      EndStep(s, events[0]);
      EndsInTime(Next(s, events[0]), events[1..]);
    }
  }

  lemma NothingToDo<T>(s: State<T>)
    ensures ToDo(s) == 0 <==> s.queue.items == [] && s.running == {} && s.woken == {}
  {
    assert s.running <= s.running + s.woken && s.woken <= s.running + s.woken;
  }
}
