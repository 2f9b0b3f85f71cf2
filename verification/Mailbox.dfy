/** The lwIP mailbox over an OS queue and a counting semaphore (lwip/port/sys_arch.c), for any number
    of tasks whose atomic steps interleave freely. */
module Mailbox {
  import opened Common

  /** What a task is about to do. */
  datatype Task =
    | Idle
    | Putting(msg: int, woken: bool)   // sys_mbox_post, in front of the queue
    | Waiting(msg: int)                // sys_mbox_post, found the queue full, in front of the semaphore
    | Getting                          // sys_arch_mbox_fetch, in front of the queue
    | Signalling                       // sys_arch_mbox_fetch, has its message, in front of the semaphore

  /** The queue holds at most `capacity` messages, and the semaphore counts up to `limit`. posted and
      fetched are the messages that have gone in and come out so far. */
  datatype Box = Box(capacity: nat, limit: nat, queue: seq<int>, count: nat, tasks: seq<Task>,
                     posted: seq<int>, fetched: seq<int>) {
    function Free(): int {
      capacity - |queue|
    }
  }

  datatype Step =
    | Post(t: nat, msg: int)      // a task calls sys_mbox_post
    | Put(t: nat)                 // ... and puts its message, or finds the queue full
    | Wake(t: nat)                // ... and gets past the semaphore
    | TryPost(t: nat, msg: int)   // sys_mbox_trypost
    | Fetch(t: nat)               // a task calls sys_arch_mbox_fetch
    | Get(t: nat)                 // ... and gets a message
    | Expire(t: nat)              // ... or its time is up
    | Signal(t: nat)              // ... and signals the semaphore

  ghost predicate Enabled(b: Box, s: Step) {
    && s.t < |b.tasks|
    && match s
       case Post(t, _) => b.tasks[t].Idle?
       case Put(t) => b.tasks[t].Putting?
       case Wake(t) => b.tasks[t].Waiting? && b.count > 0
       case TryPost(t, _) => b.tasks[t].Idle?
       case Fetch(t) => b.tasks[t].Idle?
       case Get(t) => b.tasks[t].Getting? && b.queue != []
       case Expire(t) => b.tasks[t].Getting?
       case Signal(t) => b.tasks[t].Signalling?
  }

  function Become(b: Box, t: nat, task: Task): Box
    requires t < |b.tasks|
  {
    b.(tasks := b.tasks[t := task])
  }

  function Next(b: Box, s: Step): Box
    requires Enabled(b, s)
  {
    match s
    case Post(t, msg) => Become(b, t, Putting(msg, false))
    case Put(t) =>
      var msg := b.tasks[t].msg;
      if |b.queue| < b.capacity
      then Become(b, t, Idle).(queue := b.queue + [msg], posted := b.posted + [msg])
      else Become(b, t, Waiting(msg))
    case Wake(t) => Become(b, t, Putting(b.tasks[t].msg, true)).(count := b.count - 1)
    case TryPost(t, msg) =>
      if |b.queue| < b.capacity then b.(queue := b.queue + [msg], posted := b.posted + [msg]) else b
    case Fetch(t) => Become(b, t, Getting)
    case Get(t) => Become(b, t, Signalling).(queue := b.queue[1..], fetched := b.fetched + [b.queue[0]])
    case Expire(t) => Become(b, t, Idle)
    case Signal(t) => Become(b, t, Idle).(count := Min(b.count + 1, b.limit))
  }

  // ---- Counting tasks -------------------------------------------------------------------

  predicate OnItsWay(task: Task) {
    task.Signalling? || (task.Putting? && task.woken)
  }

  /** The tasks that will yet signal the semaphore, or have been woken and not retried. */
  function Pending(tasks: seq<Task>): nat {
    Count(tasks, OnItsWay)
  }

  // ---- What every step keeps ------------------------------------------------------------

  predicate SomeoneWaits(tasks: seq<Task>) {
    exists t :: 0 <= t < |tasks| && tasks[t].Waiting?
  }

  /** Nothing is lost or reordered, and while a poster waits, every free slot is matched by a count
      of the semaphore or by a task on its way. */
  ghost predicate Good(b: Box) {
    && |b.queue| <= b.capacity <= b.limit && b.count <= b.limit
    && b.posted == b.fetched + b.queue
    && (SomeoneWaits(b.tasks) ==> b.Free() <= b.count + Pending(b.tasks))
  }

  lemma StillWaits(tasks: seq<Task>, t: nat, task: Task)
    requires t < |tasks| && SomeoneWaits(tasks[t := task]) && !task.Waiting?
    ensures SomeoneWaits(tasks)
  {}

  /** Messages are fetched in the order in which they were posted. */
  lemma OrderKept(b: Box, s: Step)
    requires Good(b) && Enabled(b, s)
    ensures var b' := Next(b, s); b'.posted == b'.fetched + b'.queue
  {}

  lemma StepGood(b: Box, s: Step)
    requires Good(b) && Enabled(b, s)
    ensures Good(Next(b, s))
  {
    hide SomeoneWaits;
    var b' := Next(b, s);
    if b'.tasks != b.tasks {
      var task := b'.tasks[s.t];
      assert b'.tasks == b.tasks[s.t := task];
      CountChanged(b.tasks, s.t, task, OnItsWay);
      if SomeoneWaits(b'.tasks) && !task.Waiting? {
        StillWaits(b.tasks, s.t, task);
      }
    }
    OrderKept(b, s);
  }

  // ---- Every run ------------------------------------------------------------------------

  ghost predicate Run(states: seq<Box>, steps: seq<Step>) {
    && |states| == |steps| + 1
    && forall i :: 0 <= i < |steps| ==> Enabled(states[i], steps[i]) && states[i + 1] == Next(states[i], steps[i])
  }

  /** A new mailbox, and any number of tasks. */
  function Start(capacity: nat, limit: nat, tasks: nat): Box {
    Box(capacity, limit, [], 0, seq(tasks, _ => Idle), [], [])
  }

  lemma {:induction false} RunGood(states: seq<Box>, steps: seq<Step>, i: nat)
    requires Run(states, steps) && i < |states| && Good(states[0])
    ensures Good(states[i])
    decreases i
  {
    hide Good;
    if i > 0 {
      RunGood(states, steps, i - 1);
      StepGood(states[i - 1], steps[i - 1]);
    }
  }

  /** Nobody is about to signal the semaphore, to get past it, or to try again after that. */
  ghost predicate Quiet(b: Box) {
    forall t :: 0 <= t < |b.tasks| ==> !OnItsWay(b.tasks[t]) && !Enabled(b, Wake(t))
  }

  /** No wake-up is lost in any interleaving of any number of posters, tryposters and fetchers: once
      nothing more is on its way, a poster can only be asleep because the queue is full. Messages
      come out in the order they went in, each once. */
  lemma NoLostWakeUp(states: seq<Box>, steps: seq<Step>, i: nat, capacity: nat, limit: nat, tasks: nat)
    requires Run(states, steps) && i < |states|
    requires states[0] == Start(capacity, limit, tasks) && capacity <= limit
    ensures states[i].posted == states[i].fetched + states[i].queue
    ensures SomeoneWaits(states[i].tasks) ==> states[i].Free() <= states[i].count + Pending(states[i].tasks)
    ensures SomeoneWaits(states[i].tasks) && Quiet(states[i]) ==> |states[i].queue| == states[i].capacity
  {
    assert Good(states[0]);
    RunGood(states, steps, i);
    if Quiet(states[i]) {
      CountNone(states[i].tasks, OnItsWay);
    }
  }

  // ---- Messages do get through ----------------------------------------------------------

  /** sys_mbox_trypost puts the message if and only if there is room, and never waits. */
  lemma TryPostExact(b: Box, t: nat, msg: int)
    requires Good(b) && Enabled(b, TryPost(t, msg))
    ensures var b' := Next(b, TryPost(t, msg));
      && b'.tasks == b.tasks && b'.fetched == b.fetched
      && b'.posted == if |b.queue| < b.capacity then b.posted + [msg] else b.posted
  {}

  /** A poster that sleeps beside a full queue gets its message in as soon as another task fetches one:
      what that task gets is the oldest message, and its signal wakes the poster up. */
  lemma FetchLetsPost(b: Box, t: nat, u: nat) returns (states: seq<Box>, steps: seq<Step>)
    requires Good(b) && 0 < |b.queue| == b.capacity && t < |b.tasks| && u < |b.tasks|
    requires b.tasks[t].Waiting? && b.tasks[u].Idle?
    ensures Run(states, steps) && states[0] == b
    ensures var b' := states[|steps|];
      && b'.tasks == b.tasks[t := Idle] && b'.count == Min(b.count + 1, b.limit) - 1
      && b'.fetched == b.fetched + [b.queue[0]] && b'.posted == b.posted + [b.tasks[t].msg]
      && b'.queue == b.queue[1..] + [b.tasks[t].msg]
  {
    var b1 := Next(b, Fetch(u));
    var b2 := Next(b1, Get(u));
    var b3 := Next(b2, Signal(u));
    assert b3.tasks == b.tasks && b3.count > 0;
    var b4 := Next(b3, Wake(t));
    var b5 := Next(b4, Put(t));
    assert b5.tasks == b.tasks[t := Idle];
    states, steps := [b, b1, b2, b3, b4, b5], [Fetch(u), Get(u), Signal(u), Wake(t), Put(t)];
  }

  // ---- The bound is needed --------------------------------------------------------------

  /** A run with these steps leads from one state to another. */
  ghost predicate Leads(b: Box, steps: seq<Step>, b': Box)
    decreases |steps|
  {
    if steps == [] then b == b' else Enabled(b, steps[0]) && Leads(Next(b, steps[0]), steps[1..], b')
  }

  lemma {:induction false} LeadsOn(a: Box, first: seq<Step>, b: Box, second: seq<Step>, c: Box)
    requires Leads(a, first, b) && Leads(b, second, c)
    ensures Leads(a, first + second, c)
    decreases |first|
  {
    hide Enabled, Next;
    if first == [] {
      assert first + second == second;
    } else {
      LeadsOn(Next(a, first[0]), first[1..], b, second, c);
      assert (first + second)[1..] == first[1..] + second;
    }
  }

  lemma {:induction false} LeadsRun(b: Box, steps: seq<Step>, b': Box) returns (states: seq<Box>)
    requires Leads(b, steps, b')
    ensures Run(states, steps) && states[0] == b && states[|steps|] == b'
    decreases |steps|
  {
    hide Enabled, Next;
    if steps == [] {
      states := [b];
    } else {
      var rest := LeadsRun(Next(b, steps[0]), steps[1..], b');
      states := [b] + rest;
      forall i | 0 <= i < |steps| ensures Enabled(states[i], steps[i]) && states[i + 1] == Next(states[i], steps[i]) {
        if i > 0 {
          assert rest[i - 1] == states[i] && rest[i] == states[i + 1] && steps[1..][i - 1] == steps[i];
        }
      }
    }
  }

  function Zeros(n: nat): (s: seq<int>)
    ensures |s| == n && forall k :: 0 <= k < n ==> s[k] == 0
  {
    seq(n, _ => 0)
  }

  /** Posters low to high - 1 are asleep, everybody else is idle; all messages are 0. */
  function Stage(capacity: nat, limit: nat, queued: nat, count: nat, low: nat, high: nat, fetched: nat,
                 tasks: nat): Box {
    Box(capacity, limit, Zeros(queued), count, seq(tasks, t => if low <= t < high then Waiting(0) else Idle),
        Zeros(fetched + queued), Zeros(fetched))
  }

  /** Task 0 fills the queue. */
  lemma FillOne(capacity: nat, limit: nat, queued: nat, tasks: nat)
    requires queued < capacity && 0 < tasks
    ensures Leads(Stage(capacity, limit, queued, 0, 1, 1, 0, tasks), [TryPost(0, 0)],
                  Stage(capacity, limit, queued + 1, 0, 1, 1, 0, tasks))
  {
    var b := Stage(capacity, limit, queued, 0, 1, 1, 0, tasks);
    assert Zeros(queued) + [0] == Zeros(queued + 1) && Zeros(0 + queued) + [0] == Zeros(0 + (queued + 1));
    assert Next(b, TryPost(0, 0)) == Stage(capacity, limit, queued + 1, 0, 1, 1, 0, tasks);
    assert [TryPost(0, 0)][1..] == [];
  }

  /** One more poster finds the queue full. */
  lemma SleepOne(capacity: nat, limit: nat, high: nat, tasks: nat)
    requires 1 <= high < tasks
    ensures Leads(Stage(capacity, limit, capacity, 0, 1, high, 0, tasks), [Post(high, 0), Put(high)],
                  Stage(capacity, limit, capacity, 0, 1, high + 1, 0, tasks))
  {
    var b, b' := Stage(capacity, limit, capacity, 0, 1, high, 0, tasks),
      Stage(capacity, limit, capacity, 0, 1, high + 1, 0, tasks);
    var m := Next(b, Post(high, 0));
    assert Next(m, Put(high)) == b';
    assert [Post(high, 0), Put(high)][1..] == [Put(high)] && [Put(high)][1..] == [];
  }

  /** Task 0 fetches a message and signals. */
  lemma FetchOne(capacity: nat, limit: nat, queued: nat, count: nat, high: nat, fetched: nat, tasks: nat)
    requires 0 < queued && 1 <= high <= tasks
    ensures Leads(Stage(capacity, limit, queued, count, 1, high, fetched, tasks), [Fetch(0), Get(0), Signal(0)],
                  Stage(capacity, limit, queued - 1, Min(count + 1, limit), 1, high, fetched + 1, tasks))
  {
    var b := Stage(capacity, limit, queued, count, 1, high, fetched, tasks);
    var b' := Stage(capacity, limit, queued - 1, Min(count + 1, limit), 1, high, fetched + 1, tasks);
    var m := Next(Next(b, Fetch(0)), Get(0));
    assert Zeros(queued)[1..] == Zeros(queued - 1) && Zeros(fetched) + [0] == Zeros(fetched + 1);
    assert Next(m, Signal(0)) == b';
    assert [Fetch(0), Get(0), Signal(0)][1..] == [Get(0), Signal(0)] && [Get(0), Signal(0)][1..] == [Signal(0)];
    assert [Signal(0)][1..] == [];
  }

  /** One sleeper gets past the semaphore and puts its message. */
  lemma WakeOne(capacity: nat, limit: nat, queued: nat, count: nat, low: nat, high: nat, fetched: nat, tasks: nat)
    requires queued < capacity && 0 < count && low < high <= tasks
    ensures Leads(Stage(capacity, limit, queued, count, low, high, fetched, tasks), [Wake(low), Put(low)],
                  Stage(capacity, limit, queued + 1, count - 1, low + 1, high, fetched, tasks))
  {
    var b := Stage(capacity, limit, queued, count, low, high, fetched, tasks);
    var b' := Stage(capacity, limit, queued + 1, count - 1, low + 1, high, fetched, tasks);
    var m := Next(b, Wake(low));
    assert Zeros(queued) + [0] == Zeros(queued + 1) && Zeros(fetched + queued) + [0] == Zeros(fetched + (queued + 1));
    assert Next(m, Put(low)) == b';
    assert [Wake(low), Put(low)][1..] == [Put(low)] && [Put(low)][1..] == [];
  }

  lemma {:induction false} FillAll(capacity: nat, limit: nat, queued: nat, tasks: nat) returns (steps: seq<Step>)
    requires queued <= capacity && 0 < tasks
    ensures Leads(Stage(capacity, limit, 0, 0, 1, 1, 0, tasks), steps,
      Stage(capacity, limit, queued, 0, 1, 1, 0, tasks))
    decreases queued
  {
    hide Stage;
    steps := [];
    if queued > 0 {
      steps := FillAll(capacity, limit, queued - 1, tasks);
      FillOne(capacity, limit, queued - 1, tasks);
      LeadsOn(Stage(capacity, limit, 0, 0, 1, 1, 0, tasks), steps,
        Stage(capacity, limit, queued - 1, 0, 1, 1, 0, tasks),
              [TryPost(0, 0)], Stage(capacity, limit, queued, 0, 1, 1, 0, tasks));
      steps := steps + [TryPost(0, 0)];
    }
  }

  lemma {:induction false} SleepAll(capacity: nat, limit: nat, high: nat, tasks: nat) returns (steps: seq<Step>)
    requires 1 <= high <= tasks
    ensures Leads(Stage(capacity, limit, capacity, 0, 1, 1, 0, tasks), steps,
      Stage(capacity, limit, capacity, 0, 1, high, 0, tasks))
    decreases high
  {
    hide Stage;
    steps := [];
    if high > 1 {
      steps := SleepAll(capacity, limit, high - 1, tasks);
      SleepOne(capacity, limit, high - 1, tasks);
      LeadsOn(Stage(capacity, limit, capacity, 0, 1, 1, 0, tasks), steps,
        Stage(capacity, limit, capacity, 0, 1, high - 1, 0, tasks),
              [Post(high - 1, 0), Put(high - 1)], Stage(capacity, limit, capacity, 0, 1, high, 0, tasks));
      steps := steps + [Post(high - 1, 0), Put(high - 1)];
    }
  }

  /** The semaphore does not count all of n signals if n is more than it can hold. */
  lemma {:induction false} FetchAll(capacity: nat, limit: nat, n: nat, high: nat, tasks: nat) returns (steps: seq<Step>)
    requires n <= capacity && 1 <= high <= tasks
    ensures Leads(Stage(capacity, limit, capacity, 0, 1, high, 0, tasks), steps,
                  Stage(capacity, limit, capacity - n, Min(n, limit), 1, high, n, tasks))
    decreases n
  {
    hide Stage;
    steps := [];
    if n > 0 {
      steps := FetchAll(capacity, limit, n - 1, high, tasks);
      FetchOne(capacity, limit, capacity - (n - 1), Min(n - 1, limit), high, n - 1, tasks);
      LeadsOn(Stage(capacity, limit, capacity, 0, 1, high, 0, tasks), steps,
              Stage(capacity, limit, capacity - (n - 1), Min(n - 1, limit), 1, high, n - 1, tasks),
              [Fetch(0), Get(0), Signal(0)], Stage(capacity, limit, capacity - n, Min(n, limit), 1, high, n, tasks));
      steps := steps + [Fetch(0), Get(0), Signal(0)];
    }
  }

  lemma {:induction false} WakeAll(capacity: nat, limit: nat, n: nat, high: nat, tasks: nat) returns (steps: seq<Step>)
    requires n <= limit < capacity && limit + 1 < high <= tasks
    ensures Leads(Stage(capacity, limit, capacity - (limit + 1), limit, 1, high, limit + 1, tasks), steps,
                  Stage(capacity, limit, capacity - (limit + 1) + n, limit - n, 1 + n, high, limit + 1, tasks))
    decreases n
  {
    hide Stage;
    steps := [];
    if n > 0 {
      steps := WakeAll(capacity, limit, n - 1, high, tasks);
      var q := capacity - (limit + 1);
      WakeOne(capacity, limit, q + (n - 1), limit - (n - 1), n, high, limit + 1, tasks);
      LeadsOn(Stage(capacity, limit, q, limit, 1, high, limit + 1, tasks), steps,
              Stage(capacity, limit, q + (n - 1), limit - (n - 1), n, high, limit + 1, tasks),
              [Wake(n), Put(n)], Stage(capacity, limit, q + n, limit - n, 1 + n, high, limit + 1, tasks));
      steps := steps + [Wake(n), Put(n)];
    }
  }

  /** A poster sleeps beside a free slot, and nobody will ever wake it. */
  ghost predicate Lost(b: Box) {
    SomeoneWaits(b.tasks) && Quiet(b) && |b.queue| < b.capacity
  }

  lemma StageLost(capacity: nat, limit: nat)
    requires limit < capacity
    ensures Lost(Stage(capacity, limit, capacity - 1, 0, limit + 1, limit + 2, limit + 1, limit + 2))
  {
    var b := Stage(capacity, limit, capacity - 1, 0, limit + 1, limit + 2, limit + 1, limit + 2);
    assert b.tasks[limit + 1].Waiting?;
  }

  /** With a semaphore that cannot count as far as the queue is long, a wake-up can be lost: one
      poster more than it can count falls asleep beside a full queue, as many messages are fetched
      before any of them wakes up, and the last signal is not counted. */
  lemma LimitNeeded(capacity: nat, limit: nat) returns (states: seq<Box>, steps: seq<Step>)
    requires limit < capacity
    ensures Run(states, steps) && states[0] == Start(capacity, limit, limit + 2) && Lost(states[|steps|])
  {
    hide Stage, Leads, Lost, Quiet, Enabled, Next;
    var tasks := limit + 2;
    var b0, b1 := Stage(capacity, limit, 0, 0, 1, 1, 0, tasks), Stage(capacity, limit, capacity, 0, 1, 1, 0, tasks);
    var b2 := Stage(capacity, limit, capacity, 0, 1, tasks, 0, tasks);
    var b3 := Stage(capacity, limit, capacity - (limit + 1), limit, 1, tasks, limit + 1, tasks);
    var b4 := Stage(capacity, limit, capacity - 1, 0, limit + 1, tasks, limit + 1, tasks);
    var fill := FillAll(capacity, limit, capacity, tasks);
    var sleep := SleepAll(capacity, limit, tasks, tasks);
    var fetch := FetchAll(capacity, limit, limit + 1, tasks, tasks);
    var wake := WakeAll(capacity, limit, limit, tasks, tasks);
    LeadsOn(b0, fill, b1, sleep, b2);
    LeadsOn(b0, fill + sleep, b2, fetch, b3);
    LeadsOn(b0, fill + sleep + fetch, b3, wake, b4);
    steps := fill + sleep + fetch + wake;
    states := LeadsRun(b0, steps, b4);
    StageStart(capacity, limit, tasks);
    StageLost(capacity, limit);
  }

  lemma StageStart(capacity: nat, limit: nat, tasks: nat)
    ensures Stage(capacity, limit, 0, 0, 1, 1, 0, tasks) == Start(capacity, limit, tasks)
  {
    assert Zeros(0) == [] == Zeros(0 + 0);
    assert Stage(capacity, limit, 0, 0, 1, 1, 0, tasks).tasks == seq(tasks, _ => Idle);
  }

  /** No run of the mailbox, whatever the number of tasks, loses a wake-up. */
  ghost predicate Lossless(capacity: nat, limit: nat) {
    forall states: seq<Box>, steps: seq<Step> ::
      Run(states, steps) && states[0] == Start(capacity, limit, |states[0].tasks|) ==> !Lost(states[|steps|])
  }

  /** The exact condition: no wake-up is ever lost if and only if the semaphore can count as far as
      the queue is long. */
  lemma LosslessExact(capacity: nat, limit: nat)
    ensures Lossless(capacity, limit) <==> capacity <= limit
  {
    hide Quiet, Enabled, Next, Pending, Good;
    if capacity <= limit {
      forall states: seq<Box>, steps: seq<Step>
        | Run(states, steps) && states[0] == Start(capacity, limit, |states[0].tasks|)
        ensures !Lost(states[|steps|])
      {
        NoLostWakeUp(states, steps, |steps|, capacity, limit, |states[0].tasks|);
        RunCapacity(states, steps, |steps|);
      }
    } else {
      var states, steps := LimitNeeded(capacity, limit);
      assert |states[0].tasks| == limit + 2;
    }
  }

  lemma {:induction false} RunCapacity(states: seq<Box>, steps: seq<Step>, i: nat)
    requires Run(states, steps) && i < |states|
    ensures states[i].capacity == states[0].capacity
    decreases i
  {
    if i > 0 {
      RunCapacity(states, steps, i - 1);
    }
  }
}
