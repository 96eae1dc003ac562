/** The asynchronous logger: src/common/logger.c. Lines are opaque texts; each critical section is one step. */
module Logger {
  import opened Prelude
  import opened Ring
  import Decimal

  const LOG_QUEUE_CAP := 4096
  const GUI_LOG_RING := 64

  /** A line of the log: one that was logged, or the logger's own report of refused ones. */
  datatype Line = Plain(text: string) | Report(drops: nat)

  function Shown(line: Line): string {
    match line
    case Plain(text) => text
    case Report(n) => "logger queue overflow: dropped " + Decimal.Print(n) + " log lines"
  }

  /** What the logger thread has taken from the queue and has yet to write. */
  datatype Taken = Nothing | Took(drops: nat, text: string)

  /** The logger; `accepted` and `refused` record what the callers of `log_msg` have seen. */
  datatype Log = Log(
    queue: seq<string>,
    dropped: nat,
    stop: bool,
    taken: Taken,
    file: seq<Line>,
    accepted: seq<string>,
    refused: nat)

  datatype Event = Message(text: string) | Take | WriteReport | WriteLine | Stop

  predicate CanTake(s: Log) {
    s.taken.Nothing? && |s.queue| > 0
  }

  function Next(s: Log, e: Event): Log {
    match e
    case Message(text) =>
      if |s.queue| >= LOG_QUEUE_CAP then s.(dropped := s.dropped + 1, refused := s.refused + 1)
      else s.(queue := s.queue + [text], accepted := s.accepted + [text])
    case Take =>
      if CanTake(s) then s.(queue := s.queue[1..], dropped := 0, taken := Took(s.dropped, s.queue[0])) else s
    case WriteReport =>
      if s.taken.Took? && s.taken.drops > 0 then
        s.(file := s.file + [Report(s.taken.drops)], taken := Took(0, s.taken.text))
      else s
    case WriteLine =>
      if s.taken.Took? && s.taken.drops == 0 then s.(file := s.file + [Plain(s.taken.text)], taken := Nothing) else s
    case Stop => s.(stop := true)
  }

  function After(s: Log, events: seq<Event>): Log
    decreases |events|
  {
    if |events| == 0 then s else After(Next(s, events[0]), events[1..])
  }

  /** A logger that has just started. */
  ghost predicate Initial(s: Log) {
    s.queue == [] && s.dropped == 0 && !s.stop && s.taken.Nothing? && s.file == [] && s.accepted == [] && s.refused == 0
  }

  /** The ordinary lines of the file. */
  function PlainLines(file: seq<Line>): seq<string> {
    if |file| == 0 then []
    else PlainLines(file[..|file| - 1]) + if file[|file| - 1].Plain? then [file[|file| - 1].text] else []
  }

  /** The sum of the reported drops. */
  function Reported(file: seq<Line>): nat {
    if |file| == 0 then 0
    else Reported(file[..|file| - 1]) + if file[|file| - 1].Report? then file[|file| - 1].drops else 0
  }

  lemma FileSnoc(file: seq<Line>, line: Line)
    ensures PlainLines(file + [line]) == PlainLines(file) + if line.Plain? then [line.text] else []
    ensures Reported(file + [line]) == Reported(file) + if line.Report? then line.drops else 0
  {
    assert (file + [line])[..|file|] == file;
  }

  function TakenLine(t: Taken): seq<string> {
    if t.Took? then [t.text] else []
  }

  function TakenDrops(t: Taken): nat {
    if t.Took? then t.drops else 0
  }

  /** Every accepted line is accounted for. */
  ghost predicate LinesInv(s: Log) {
    s.accepted == PlainLines(s.file) + (TakenLine(s.taken) + s.queue)
  }

  /** So is every refused one; and refused lines wait for a report only while the queue is full. */
  ghost predicate DropsInv(s: Log) {
    && s.refused == Reported(s.file) + TakenDrops(s.taken) + s.dropped
    && (s.dropped > 0 ==> |s.queue| == LOG_QUEUE_CAP) && |s.queue| <= LOG_QUEUE_CAP
  }

  ghost predicate Inv(s: Log) {
    LinesInv(s) && DropsInv(s)
  }

  lemma StepKeepsLines(s: Log, e: Event)
    requires LinesInv(s)
    ensures LinesInv(Next(s, e))
  {
    hide PlainLines, Reported;
    var done := PlainLines(s.file);
    match e {
      case Message(text) =>
        assert (done + (TakenLine(s.taken) + s.queue)) + [text] == done + (TakenLine(s.taken) + (s.queue + [text]));
      case Take =>
        if CanTake(s) {
          assert [] + s.queue == s.queue == [s.queue[0]] + s.queue[1..];
        }
      case WriteReport =>
        if s.taken.Took? {
          FileSnoc(s.file, Report(s.taken.drops));
          assert done + [] == done;
        }
      case WriteLine =>
        if s.taken.Took? {
          FileSnoc(s.file, Plain(s.taken.text));
          MoveFirst(done, s.taken.text, s.queue);
        }
      case Stop =>
    }
  }

  lemma MoveFirst(done: seq<string>, x: string, queue: seq<string>)
    ensures done + ([x] + queue) == (done + [x]) + ([] + queue)
  {
  }

  lemma StepKeepsDrops(s: Log, e: Event)
    requires DropsInv(s)
    ensures DropsInv(Next(s, e))
  {
    hide PlainLines, Reported;
    if s.taken.Took? {
      FileSnoc(s.file, Report(s.taken.drops));
      FileSnoc(s.file, Plain(s.taken.text));
    }
  }

  lemma StepKeepsInv(s: Log, e: Event)
    requires Inv(s)
    ensures Inv(Next(s, e))
  {
    hide LinesInv, DropsInv, Next;
    StepKeepsLines(s, e);
    StepKeepsDrops(s, e);
  }

  lemma {:induction false} RunsKeepInv(s: Log, events: seq<Event>)
    requires Inv(s)
    ensures Inv(After(s, events))
    decreases |events|
  {
    hide Inv, Next;
    if |events| > 0 {
      StepKeepsInv(s, events[0]);
      RunsKeepInv(Next(s, events[0]), events[1..]);
    }
  }

  /**
   Over every run: the written ordinary lines, the line in hand and the queue are the accepted lines in
   order; the reported drops and those still to report are the refused lines; and drops wait for a report
   only while the queue is full.
   */
  lemma Accounting(start: Log, events: seq<Event>)
    requires Initial(start)
    ensures var s := After(start, events);
      && s.accepted == PlainLines(s.file) + (TakenLine(s.taken) + s.queue)
      && s.refused == Reported(s.file) + TakenDrops(s.taken) + s.dropped
      && (s.dropped > 0 ==> |s.queue| == LOG_QUEUE_CAP)
  {
    hide After, PlainLines, Reported;
    InitialInv(start);
    RunsKeepInv(start, events);
  }

  lemma InitialInv(start: Log)
    requires Initial(start)
    ensures Inv(start)
  {
  }

  /** Once the queue is drained, every accepted line is in the file, in order, and every refused one is reported. */
  lemma DrainedMeansReported(start: Log, events: seq<Event>)
    requires Initial(start) && After(start, events).queue == [] && After(start, events).taken.Nothing?
    ensures var s := After(start, events);
      PlainLines(s.file) == s.accepted && Reported(s.file) == s.refused && s.dropped == 0
  {
    hide After, PlainLines, Reported;
    Accounting(start, events);
    var s := After(start, events);
    assert PlainLines(s.file) + ([] + []) == PlainLines(s.file);
  }

  // ---- The code ----

  /** The last `n` lines, as the GUI shows them. */
  function Last(file: seq<Line>, n: nat): (r: seq<string>)
    requires n <= |file|
    ensures |r| == n && forall i | 0 <= i < n :: r[i] == Shown(file[|file| - n + i])
  {
    seq(n, i requires 0 <= i < n => Shown(file[|file| - n + i]))
  }

  /** An ordinary line is shown as it was logged, a report with its number. */
  ghost predicate ShowsLine(text: string, line: Line) {
    match line
    case Plain(logged) => text == logged
    case Report(n) => text == "logger queue overflow: dropped " + Decimal.Print(n) + " log lines"
  }

  /** The lines are the last ones of the file. */
  ghost predicate ShowsTail(lines: seq<string>, file: seq<Line>) {
    |lines| <= |file| && forall i | 0 <= i < |lines| :: ShowsLine(lines[i], file[|file| - |lines| + i])
  }

  lemma ShownIsShown(line: Line)
    ensures ShowsLine(Shown(line), line)
  {
  }

  lemma LastShows(file: seq<Line>, n: nat)
    requires n <= |file|
    ensures ShowsTail(Last(file, n), file)
  {
    hide Shown, ShowsLine;
    forall i | 0 <= i < n ensures ShowsLine(Last(file, n)[i], file[|file| - n + i]) {
      ShownIsShown(file[|file| - n + i]);
    }
  }

  function Min(a: nat, b: nat): nat { if a < b then a else b }

  datatype Wakeup = Waits | Ends | Takes

  class AsyncLogger {
    const queue: array<string>
    var head: nat
    var tail: nat
    var count: nat
    var stop: bool
    var dropped: nat
    const ring: array<string>
    var ringStart: nat
    var ringCount: nat
    var taken: Taken
    var file: seq<Line>
    ghost var accepted: seq<string>
    ghost var refused: nat

    ghost predicate QueueValid()
      reads this, queue
    {
      && queue.Length == LOG_QUEUE_CAP && head < LOG_QUEUE_CAP && count <= LOG_QUEUE_CAP
      && tail == Slot(head, count, LOG_QUEUE_CAP)
    }

    /** The GUI ring holds the last lines of the file. */
    ghost predicate RingValid()
      reads this, ring
    {
      && ring.Length == GUI_LOG_RING && ringStart < GUI_LOG_RING
      && ringCount == Min(|file|, GUI_LOG_RING)
      && Unroll(ring[..], ringStart, ringCount) == Last(file, ringCount)
    }

    ghost predicate Valid()
      reads this, queue, ring
    {
      queue != ring && QueueValid() && RingValid()
    }

    ghost function Model(): Log
      requires Valid()
      reads this, queue, ring
    {
      Log(Unroll(queue[..], head, count), dropped, stop, taken, file, accepted, refused)
    }

    constructor ()
      ensures Valid() && fresh(queue) && fresh(ring) && Initial(Model())
    {
      queue := new string[LOG_QUEUE_CAP];
      ring := new string[GUI_LOG_RING];
      head, tail, count, stop, dropped := 0, 0, 0, false, 0;
      ringStart, ringCount := 0, 0;
      taken, file, accepted, refused := Nothing, [], [], 0;
    }

    /** The critical section of `log_msg`. */
    method LogMsg(text: string)
      requires Valid()
      modifies this, queue
      ensures Valid() && Model() == Next(old(Model()), Message(text))
    {
      hide Last, Shown;
      if count == LOG_QUEUE_CAP {
        dropped := dropped + 1;
        refused := refused + 1;
        return;
      }
      UnrollPush(queue[..], head, count, text);
      ghost var cells := queue[..];
      queue[tail] := text;
      assert queue[..] == cells[tail := text];
      tail := (tail + 1) % LOG_QUEUE_CAP;
      count := count + 1;
      accepted := accepted + [text];
    }

    /** The critical section of the logger thread. */
    method TakeLine() returns (r: Wakeup)
      requires Valid() && taken.Nothing?
      modifies this
      ensures Valid() && Model() == Next(old(Model()), Take)
      ensures r == if old(count) > 0 then Takes else if old(stop) then Ends else Waits
    {
      hide Last, Shown;
      if !stop && count == 0 {
        return Waits;
      }
      if stop && count == 0 {
        return Ends;
      }
      UnrollPop(queue[..], head, count);
      taken := Took(dropped, queue[head]);
      head := (head + 1) % LOG_QUEUE_CAP;
      count := count - 1;
      dropped := 0;
      r := Takes;
    }

    /** The writes that follow: the report, if lines were dropped, and then the line itself. */
    method WriteTaken()
      requires Valid() && taken.Took?
      modifies this, ring
      ensures Valid()
      ensures Model() == Next(Next(old(Model()), WriteReport), WriteLine)
    {
      if taken.drops > 0 {
        WriteUnlocked(Report(taken.drops));
        taken := Took(0, taken.text);
      }
      WriteUnlocked(Plain(taken.text));
      taken := Nothing;
    }

    /** `write_line_unlocked`: the file first, then the ring. */
    method WriteUnlocked(line: Line)
      requires Valid()
      modifies this`file, this`ringStart, this`ringCount, ring
      ensures Valid() && Model() == old(Model()).(file := old(file) + [line])
    {
      ghost var before := file;
      file := file + [line];
      RingAdd(Shown(line));
      NewestLast(before, line, old(ringCount), ringCount);
    }

    /** `ring_add`: the next free place, or the place of the oldest line. */
    method RingAdd(text: string)
      requires queue != ring && ring.Length == GUI_LOG_RING && ringStart < GUI_LOG_RING && ringCount <= GUI_LOG_RING
      modifies this`ringStart, this`ringCount, ring
      ensures ringStart < GUI_LOG_RING && ringCount == Min(old(ringCount) + 1, GUI_LOG_RING)
      ensures var (lines, n) := (Unroll(old(ring[..]), old(ringStart), old(ringCount)), old(ringCount));
        Unroll(ring[..], ringStart, ringCount) == (if n == GUI_LOG_RING then lines[1..] else lines) + [text]
    {
      var index := (ringStart + ringCount) % GUI_LOG_RING;
      ghost var cells := ring[..];
      if ringCount == GUI_LOG_RING {
        index := ringStart;
        UnrollOverwrite(cells, ringStart, text);
        ringStart := (ringStart + 1) % GUI_LOG_RING;
      } else {
        UnrollPush(cells, ringStart, ringCount, text);
        ringCount := ringCount + 1;
      }
      ring[index] := text;
      assert ring[..] == cells[index := text];
    }

    /** The flag that `logger_stop` sets before it joins the thread. */
    method SetStop()
      requires Valid()
      modifies this`stop
      ensures Valid() && Model() == Next(old(Model()), Stop)
    {
      stop := true;
    }

    /** `logger_recent`. */
    method Recent(max: int) returns (lines: seq<string>)
      requires Valid()
      ensures |lines| == (if max <= 0 then 0 else Min(max, Min(|file|, 64))) && ShowsTail(lines, file)
      ensures lines == Last(file, if max <= 0 then 0 else Min(max, Min(|file|, GUI_LOG_RING)))
    {
      hide Last, Shown, ShowsTail;
      LastShows(file, 0);
      assert Last(file, 0) == [];
      if max <= 0 {
        return [];
      }
      var n := if ringCount < max then ringCount else max;
      var start := (ringStart + ringCount - n + GUI_LOG_RING) % GUI_LOG_RING;
      assert start == Slot(ringStart, ringCount - n, GUI_LOG_RING);
      lines := [];
      var i := 0;
      while i < n
        invariant i <= n && |lines| == i
        invariant forall j | 0 <= j < i :: lines[j] == Last(file, ringCount)[ringCount - n + j]
      {
        var index := (start + i) % GUI_LOG_RING;
        assert index == Slot(ringStart, ringCount - n + i, GUI_LOG_RING);
        assert Unroll(ring[..], ringStart, ringCount)[ringCount - n + i] == ring[index];
        lines := lines + [ring[index]];
        i := i + 1;
      }
      LastShows(file, n);
      assert lines == Last(file, n);
    }
  }

  /** One more line in the file, seen through a window of its last lines. */
  lemma NewestLast(file: seq<Line>, line: Line, before: nat, after: nat)
    requires before == Min(|file|, GUI_LOG_RING) && after == Min(|file| + 1, GUI_LOG_RING)
    ensures Last(file + [line], after) ==
      (if before == GUI_LOG_RING then Last(file, before)[1..] else Last(file, before)) + [Shown(line)]
  {
    hide Shown;
  }
}
