/**
 * The bounded line logger: a queue that drops when full and a pump that restarts itself.
 *
 * JavaScript runs each stretch of code between two awaits without interruption, so a stretch is
 * one step here. The pump waits for the sink after each line, and once more between the end of
 * its loop and its `finally` callback; lines may arrive at any time.
 */
module LineLogger {
  import opened Text

  /** `id` counts the lines in the order of arrival. */
  datatype Item = Item(id: nat, line: string, important: bool)

  /** A drop and the queue it was chosen from. */
  datatype Drop = Drop(item: Item, queue: seq<Item>)

  /** A pump that has started and not yet run its `finally` callback. */
  datatype Pump = Awaiting(item: Item) | Finishing

  /**
   * `started` says that a pump's promise is kept; that there is never more than one pump is a
   * result, not part of the model. `arrived`, `sent` and `dropped` are the history: what came,
   * what went to the sink, what was lost.
   */
  datatype State = State(
    queue: seq<Item>,
    started: bool,
    pumps: seq<Pump>,
    arrived: seq<Item>,
    sent: seq<Item>,
    dropped: seq<Drop>)

  /** The first queued line that is not important, or the end of the queue. */
  function FirstUnimportant(queue: seq<Item>): (k: nat)
    ensures k <= |queue|
    ensures forall i :: 0 <= i < k ==> queue[i].important
    ensures k < |queue| ==> !queue[k].important
  {
    if queue == [] || !queue[0].important then 0 else 1 + FirstUnimportant(queue[1..])
  }

  function DropIndex(queue: seq<Item>): (k: nat)
    requires queue != []
    ensures k < |queue|
  {
    if FirstUnimportant(queue) < |queue| then FirstUnimportant(queue) else 0
  }

  function Remove<T>(s: seq<T>, k: nat): seq<T>
    requires k < |s|
  {
    s[..k] + s[k + 1..]
  }

  // ---------------------------------------------------------------- the steps

  /** From the head of a pump's loop to its next await, or to its end: what the pump then does. */
  function Turn(queue: seq<Item>): Pump {
    if queue == [] then Finishing else Awaiting(queue[0])
  }

  function Taken(s: State): State {
    if s.queue == [] then s else s.(queue := s.queue[1..], sent := s.sent + [s.queue[0]])
  }

  function EnsurePump(s: State): State {
    if s.started then s else Taken(s).(started := true, pumps := s.pumps + [Turn(s.queue)])
  }

  function Accept(s: State, line: string, important: bool, max: nat): State
    requires max > 0
  {
    var item := Item(|s.arrived|, line, important);
    var full := |s.queue| >= max;
    s.(queue := (if full then Remove(s.queue, DropIndex(s.queue)) else s.queue) + [item],
       dropped := if full then s.dropped + [Drop(s.queue[DropIndex(s.queue)], s.queue)] else s.dropped,
       arrived := s.arrived + [item])
  }

  function Enqueue(s: State, line: string, important: bool, max: nat): State
    requires max > 0
  {
    EnsurePump(Accept(s, line, important, max))
  }

  /** Pump k goes on: the sink's promise has settled, one way or the other, or its `finally` callback runs. */
  function Resume(s: State, k: nat): State
    requires k < |s.pumps|
  {
    if s.pumps[k].Awaiting? then Taken(s).(pumps := s.pumps[k := Turn(s.queue)])
    else
      var ended := s.(started := false, pumps := Remove(s.pumps, k));
      if s.queue == [] then ended else EnsurePump(ended)
  }

  datatype Event = Line(text: string, important: bool) | Progress(k: nat)

  function Step(s: State, e: Event, max: nat): State
    requires max > 0
  {
    match e
    case Line(text, important) => Enqueue(s, text, important, max)
    case Progress(k) => if k < |s.pumps| then Resume(s, k) else s
  }

  function Run(s: State, events: seq<Event>, max: nat): State
    requires max > 0
    decreases |events|
  {
    if events == [] then s else Run(Step(s, events[0], max), events[1..], max)
  }

  const START := State([], false, [], [], [], [])

  // ---------------------------------------------------------------- the logger itself

  class Logger {
    const maxQueueSize: nat
    const redact: string -> string
    var queue: seq<Item>
    var started: bool
    var pumps: seq<Pump>
    var count: nat
    ghost var arrived: seq<Item>
    ghost var sent: seq<Item>
    ghost var dropped: seq<Drop>

    constructor (limit: Option<int>, redact: string -> string)
      ensures Valid() && Contents() == START
      ensures maxQueueSize == if limit.Some? && limit.value > 0 then limit.value else 200
      ensures this.redact == redact
    {
      this.maxQueueSize := if limit.Some? && limit.value > 0 then limit.value else 200;
      this.redact := redact;
      this.queue, this.started, this.pumps, this.count := [], false, [], 0;
      this.arrived, this.sent, this.dropped := [], [], [];
    }

    ghost predicate Valid()
      reads this
    {
      maxQueueSize > 0 && count == |arrived|
    }

    ghost function Contents(): State
      reads this
    {
      State(queue, started, pumps, arrived, sent, dropped)
    }

    /** One turn of a pump's loop: takes the oldest line and hands it to the sink, or ends. */
    method TakeTurn() returns (pump: Pump)
      modifies this`queue, this`sent
      ensures pump == Turn(old(queue))
      ensures Contents() == Taken(old(Contents()))
    {
      if |queue| > 0 {
        var item := queue[0];
        queue := queue[1..];
        sent := sent + [item];
        pump := Awaiting(item);
      } else {
        pump := Finishing;
      }
    }

    method StartPumpIfNone()
      modifies this`queue, this`sent, this`started, this`pumps
      ensures Contents() == EnsurePump(old(Contents()))
    {
      if !started {
        var pump := TakeTurn();
        pumps := pumps + [pump];
        started := true;
      }
    }

    /** Makes room for one more line, important lines last. */
    method MakeRoom()
      requires |queue| > 0
      modifies this`queue, this`dropped
      ensures queue == Remove(old(queue), DropIndex(old(queue)))
      ensures dropped == old(dropped) + [Drop(old(queue)[DropIndex(old(queue))], old(queue))]
    {
      var dropIndex := FirstUnimportant(queue);
      if dropIndex < |queue| {
        dropped := dropped + [Drop(queue[dropIndex], queue)];
        queue := queue[..dropIndex] + queue[dropIndex + 1..];
      } else {
        dropped := dropped + [Drop(queue[0], queue)];
        assert queue[1..] == Remove(queue, 0);
        queue := queue[1..];
      }
    }

    method EnqueueLine(line: string, important: bool)
      requires Valid()
      modifies this
      ensures Valid() && Contents() == Enqueue(old(Contents()), redact(line), important, maxQueueSize)
    {
      hide DropIndex, Remove, EnsurePump;
      var item := Item(count, redact(line), important);
      if |queue| >= maxQueueSize {
        MakeRoom();
      }
      queue := queue + [item];
      arrived := arrived + [item];
      count := count + 1;
      StartPumpIfNone();
    }

    /** The sink has answered pump k: its loop goes on. */
    method SinkSettled(k: nat)
      requires Valid() && k < |pumps| && pumps[k].Awaiting?
      modifies this
      ensures Valid() && Contents() == Resume(old(Contents()), k)
    {
      var pump := TakeTurn();
      pumps := pumps[k := pump];
    }

    /** The `finally` callback of pump k: a line that came since its loop ended starts a new pump. */
    method PumpEnded(k: nat)
      requires Valid() && k < |pumps| && pumps[k].Finishing?
      modifies this
      ensures Valid() && Contents() == Resume(old(Contents()), k)
    {
      pumps := Remove(pumps, k);
      started := false;
      if |queue| > 0 {
        StartPumpIfNone();
      }
    }
  }

  // ---------------------------------------------------------------- the invariant

  predicate Ordered(items: seq<Item>) {
    forall i, j :: 0 <= i < j < |items| ==> items[i].id < items[j].id
  }

  function Lost(dropped: seq<Drop>): seq<Item> {
    seq(|dropped|, i requires 0 <= i < |dropped| => dropped[i].item)
  }

  /** Each line that arrived has gone to the sink, is queued, or was dropped, and only one of these. */
  ghost predicate Conserved(s: State) {
    && (forall i :: 0 <= i < |s.arrived| ==> s.arrived[i].id == i)
    && multiset(s.sent) + multiset(s.queue) + multiset(Lost(s.dropped)) == multiset(s.arrived)
  }

  /**
   * A drop needs a full queue; an important line goes only if the queue holds nothing else; and of
   * its kind it is the oldest line that goes.
   */
  predicate FairDrop(d: Drop, max: nat) {
    && |d.queue| == max && d.item in d.queue
    && (d.item.important ==> forall x :: x in d.queue ==> x.important)
    && (forall x :: x in d.queue && x.important == d.item.important ==> x.id >= d.item.id)
  }

  ghost predicate History(s: State, max: nat) {
    && Ordered(s.sent + s.queue)
    && Conserved(s)
    && (forall i :: 0 <= i < |s.dropped| ==> FairDrop(s.dropped[i], max))
  }

  predicate OnePump(s: State) {
    |s.pumps| <= 1 && (s.started <==> |s.pumps| == 1)
  }

  /** A waiting pump waits for the line that went out last. */
  predicate InFlight(s: State) {
    forall k :: 0 <= k < |s.pumps| && s.pumps[k].Awaiting? ==> s.sent != [] && s.sent[|s.sent| - 1] == s.pumps[k].item
  }

  ghost predicate Inv(s: State, max: nat) {
    && |s.queue| <= max
    && OnePump(s) && InFlight(s)
    && (s.queue != [] ==> s.started)
    && History(s, max)
  }

  // ---------------------------------------------------------------- the steps keep it

  lemma TakenKeepsHistory(s: State, max: nat)
    requires History(s, max)
    ensures History(Taken(s), max)
  {
    hide FairDrop;
    if s.queue != [] {
      assert Taken(s).sent + Taken(s).queue == s.sent + s.queue;
      assert s.queue == [s.queue[0]] + s.queue[1..];
    }
  }

  lemma IdsBelow(s: State, x: Item)
    requires Conserved(s) && (x in s.queue || x in s.sent)
    ensures x.id < |s.arrived|
  {
    assert x in multiset(s.sent) + multiset(s.queue) + multiset(Lost(s.dropped));
    assert x in multiset(s.arrived);
  }

  lemma RemoveSplits<T>(s: seq<T>, k: nat)
    requires k < |s|
    ensures multiset(Remove(s, k)) + multiset{s[k]} == multiset(s)
    ensures forall x :: x in Remove(s, k) ==> x in s
  {
    assert s == s[..k] + [s[k]] + s[k + 1..];
  }

  lemma LostGrows(dropped: seq<Drop>, d: Drop)
    ensures Lost(dropped + [d]) == Lost(dropped) + [d.item]
  {
  }

  lemma RoomIsFair(queue: seq<Item>, max: nat)
    requires queue != [] && |queue| == max && Ordered(queue)
    ensures FairDrop(Drop(queue[DropIndex(queue)], queue), max)
  {
  }

  lemma OrderedAppend(items: seq<Item>, item: Item)
    requires Ordered(items) && forall x :: x in items ==> x.id < item.id
    ensures Ordered(items + [item])
  {
  }

  lemma OrderedParts(sent: seq<Item>, queue: seq<Item>, k: nat)
    requires Ordered(sent + queue) && k < |queue|
    ensures Ordered(queue) && Ordered(sent + Remove(queue, k))
  {
    forall i, j | 0 <= i < j < |queue| ensures queue[i].id < queue[j].id {
      assert (sent + queue)[|sent| + i] == queue[i] && (sent + queue)[|sent| + j] == queue[j];
    }
    var short := sent + Remove(queue, k);
    forall i, j | 0 <= i < j < |short| ensures short[i].id < short[j].id {
      var i', j' := if i < |sent| + k then i else i + 1, if j < |sent| + k then j else j + 1;
      assert (sent + queue)[i'] == short[i] && (sent + queue)[j'] == short[j];
    }
  }

  /** A line more, without a drop. */
  lemma AppendKeepsHistory(s: State, item: Item, max: nat)
    requires History(s, max) && item.id == |s.arrived|
    ensures History(s.(queue := s.queue + [item], arrived := s.arrived + [item]), max)
  {
    hide FairDrop;
    var s' := s.(queue := s.queue + [item], arrived := s.arrived + [item]);
    forall x | x in s.sent + s.queue ensures x.id < item.id {
      IdsBelow(s, x);
    }
    OrderedAppend(s.sent + s.queue, item);
    assert s'.sent + s'.queue == s.sent + s.queue + [item];
  }

  /** A drop, on a full queue. */
  lemma DropKeepsHistory(s: State, max: nat)
    requires History(s, max) && s.queue != [] && |s.queue| == max
    ensures var k := DropIndex(s.queue);
            History(s.(queue := Remove(s.queue, k), dropped := s.dropped + [Drop(s.queue[k], s.queue)]), max)
  {
    hide FairDrop, DropIndex, Remove;
    var k := DropIndex(s.queue);
    var d := Drop(s.queue[k], s.queue);
    OrderedParts(s.sent, s.queue, k);
    RoomIsFair(s.queue, max);
    RemoveSplits(s.queue, k);
    LostGrows(s.dropped, d);
    assert multiset([d.item]) == multiset{s.queue[k]};
  }

  lemma AcceptKeepsHistory(s: State, line: string, important: bool, max: nat)
    requires History(s, max) && 0 < max && |s.queue| <= max
    ensures History(Accept(s, line, important, max), max)
    ensures 0 < |Accept(s, line, important, max).queue| <= max
  {
    hide History, DropIndex;
    var item := Item(|s.arrived|, line, important);
    if |s.queue| >= max {
      var k := DropIndex(s.queue);
      DropKeepsHistory(s, max);
      AppendKeepsHistory(s.(queue := Remove(s.queue, k), dropped := s.dropped + [Drop(s.queue[k], s.queue)]), item, max);
    } else {
      AppendKeepsHistory(s, item, max);
    }
  }

  lemma PumpsDoNotMatter(s: State, t: State, max: nat)
    requires History(s, max)
    requires t == s.(started := t.started, pumps := t.pumps)
    ensures History(t, max)
  {
    hide FairDrop, Ordered;
  }

  lemma EnsurePumpKeepsInv(s: State, max: nat)
    requires |s.queue| <= max && OnePump(s) && InFlight(s) && History(s, max)
    ensures Inv(EnsurePump(s), max)
  {
    hide History;
    if !s.started {
      TakenKeepsHistory(s, max);
      PumpsDoNotMatter(Taken(s), EnsurePump(s), max);
    }
  }

  lemma ResumeKeepsInv(s: State, k: nat, max: nat)
    requires Inv(s, max) && k < |s.pumps|
    ensures Inv(Resume(s, k), max)
  {
    hide History;
    if s.pumps[k].Awaiting? {
      TakenKeepsHistory(s, max);
      PumpsDoNotMatter(Taken(s), Resume(s, k), max);
    } else {
      var ended := s.(started := false, pumps := Remove(s.pumps, k));
      PumpsDoNotMatter(s, ended, max);
      EnsurePumpKeepsInv(ended, max);
    }
  }

  lemma StepKeepsInv(s: State, e: Event, max: nat)
    requires Inv(s, max) && max > 0
    ensures Inv(Step(s, e, max), max)
  {
    hide History, Resume, EnsurePump, Remove, DropIndex;
    match e
    case Line(text, important) =>
      AcceptKeepsHistory(s, text, important, max);
      EnsurePumpKeepsInv(Accept(s, text, important, max), max);
    case Progress(k) =>
      if k < |s.pumps| { ResumeKeepsInv(s, k, max); }
  }

  lemma StartIsInv(max: nat)
    ensures Inv(START, max)
  {
  }

  /** Every interleaving of arriving lines and pump turns keeps the invariant. */
  lemma {:induction false} RunKeepsInv(s: State, events: seq<Event>, max: nat)
    requires Inv(s, max) && max > 0
    ensures Inv(Run(s, events, max), max)
    decreases |events|
  {
    hide Inv, Step;
    if events != [] {
      StepKeepsInv(s, events[0], max);
      RunKeepsInv(Step(s, events[0], max), events[1..], max);
    }
  }

  // ---------------------------------------------------------------- read off after any run

  /** What a user of the logger sees after any run from the start. */
  lemma LoggerIsSafe(events: seq<Event>, max: nat)
    requires max > 0
    ensures var s := Run(START, events, max);
            && |s.queue| <= max
            && |s.pumps| <= 1
            && (s.queue != [] ==> |s.pumps| == 1)
            && (forall x :: multiset(s.sent)[x] + multiset(s.queue)[x] + multiset(Lost(s.dropped))[x] == multiset(s.arrived)[x])
            && (forall i, j :: 0 <= i < j < |s.sent| ==> s.sent[i].id < s.sent[j].id)
            && (forall i :: 0 <= i < |s.dropped| && s.dropped[i].item.important ==>
                  |s.dropped[i].queue| == max && forall x :: x in s.dropped[i].queue ==> x.important)
  {
    hide Run;
    StartIsInv(max);
    RunKeepsInv(START, events, max);
    var s := Run(START, events, max);
    forall i, j | 0 <= i < j < |s.sent| ensures s.sent[i].id < s.sent[j].id {
      assert (s.sent + s.queue)[i] == s.sent[i] && (s.sent + s.queue)[j] == s.sent[j];
    }
    forall x ensures multiset(s.sent)[x] + multiset(s.queue)[x] + multiset(Lost(s.dropped))[x] == multiset(s.arrived)[x] {
      assert (multiset(s.sent) + multiset(s.queue) + multiset(Lost(s.dropped)))[x] == multiset(s.arrived)[x];
    }
  }

  // ---------------------------------------------------------------- the queue drains

  function Turns(n: nat): seq<Event> {
    seq(n, _ => Progress(0))
  }

  /** Turns that a pump still has to take when no line arrives. */
  function Left(s: State): nat {
    if s.pumps == [] then 0
    else if s.pumps[0].Awaiting? then |s.queue| + 2
    else if s.queue == [] then 1 else |s.queue| + 2
  }

  lemma TurnDrains(s: State, max: nat)
    requires Inv(s, max) && s.pumps != []
    ensures var s' := Resume(s, 0);
            && Left(s') < Left(s)
            && s'.sent + s'.queue == s.sent + s.queue
            && s'.dropped == s.dropped && s'.arrived == s.arrived
  {
    hide History;
  }

  /** Once lines stop arriving, every queued line goes to the sink, in order, and the pump stops. */
  lemma {:induction false} QueueDrains(s: State, n: nat, max: nat)
    requires Inv(s, max) && max > 0 && n >= Left(s)
    ensures var s' := Run(s, Turns(n), max);
            && s'.queue == [] && s'.pumps == [] && !s'.started
            && s'.sent == s.sent + s.queue
            && s'.dropped == s.dropped && s'.arrived == s.arrived
    decreases n
  {
    hide Inv, Step, Resume, Left;
    if n > 0 {
      assert Turns(n)[0] == Progress(0) && Turns(n)[1..] == Turns(n - 1);
      StepKeepsInv(s, Progress(0), max);
      ProgressDrains(s, max);
      QueueDrains(Step(s, Progress(0), max), n - 1, max);
    }
    NothingLeft(s, max);
  }

  lemma ProgressDrains(s: State, max: nat)
    requires Inv(s, max) && max > 0
    ensures var s' := Step(s, Progress(0), max);
            && (Left(s) > 0 ==> Left(s') < Left(s))
            && (Left(s) == 0 ==> s' == s)
            && s'.sent + s'.queue == s.sent + s.queue
            && s'.dropped == s.dropped && s'.arrived == s.arrived
  {
    hide History, Resume;
    if s.pumps != [] {
      TurnDrains(s, max);
    }
  }

  lemma NothingLeft(s: State, max: nat)
    requires Inv(s, max)
    ensures Left(s) == 0 ==> s.queue == [] && s.pumps == [] && !s.started && s.sent + s.queue == s.sent
  {
    hide History;
  }
}
