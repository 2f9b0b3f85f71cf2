/** The pool of network buffers (FreeRTOS+TCP BufferAllocation_2.c): a list of free descriptors
    behind a counting semaphore, for any number of tasks whose atomic steps interleave freely. A
    critical section is one step; so is each call of the semaphore and of the allocator. */
module BufferPool {
  import opened Common

  /** What a task is about to do inside the pool's functions. */
  datatype Task =
    | Outside
    | Wanting(storage: bool)              // in front of the semaphore
    | Taken(storage: bool)                // past the semaphore, in front of the free list
    | Filling(id: nat, storage: bool)     // has a descriptor, may need storage for it
    | Releasing(id: nat)                  // has given the storage back, in front of the free list
    | Giving                              // has inserted the descriptor, in front of the semaphore

  /** free lists the free descriptors; holder says which task has each of the others; stored is the
      set of descriptors that own storage from the heap. */
  datatype Pool = Pool(free: seq<nat>, count: nat, limit: nat, holder: map<nat, nat>, stored: set<nat>,
    tasks: seq<Task>)

  datatype Step =
    | Request(t: nat, storage: bool)      // pxGetNetworkBufferWithDescriptor is called
    | Expire(t: nat)                      // no descriptor in time
    | Take(t: nat)                        // the semaphore is taken
    | Pop(t: nat)                         // the head of the free list is removed
    | Fill(t: nat, memory: bool)          // storage is allocated, or that fails
    | Pass(t: nat, u: nat, id: nat)       // a descriptor goes to another task, through a queue say
    | Release(t: nat, id: nat)            // vReleaseNetworkBufferAndDescriptor is called
    | Insert(t: nat)                      // the descriptor joins the free list, unless it is there
    | Give(t: nat)                        // the semaphore is given

  /** A descriptor may be released by its holder, and again while nobody has been given it since. */
  predicate MayRelease(p: Pool, t: nat, id: nat) {
    id in p.free || (id in p.holder && p.holder[id] == t)
  }

  /** A descriptor may be passed by its holder to any task, but not to one that is just inserting that
      very descriptor a second time. */
  predicate MayPass(p: Pool, t: nat, u: nat, id: nat) {
    id in p.holder && p.holder[id] == t && u < |p.tasks| && p.tasks[u] != Releasing(id)
  }

  ghost predicate Enabled(p: Pool, s: Step) {
    && s.t < |p.tasks|
    && match s
       case Request(t, _) => p.tasks[t].Outside?
       case Expire(t) => p.tasks[t].Wanting?
       case Take(t) => p.tasks[t].Wanting? && p.count > 0
       case Pop(t) => p.tasks[t].Taken?
       case Fill(t, _) => p.tasks[t].Filling?
       case Pass(t, u, id) => p.tasks[t].Outside? && MayPass(p, t, u, id)
       case Release(t, id) => p.tasks[t].Outside? && MayRelease(p, t, id)
       case Insert(t) => p.tasks[t].Releasing? && MayRelease(p, t, p.tasks[t].id)
       case Give(t) => p.tasks[t].Giving?
  }

  function Become(p: Pool, t: nat, task: Task): Pool
    requires t < |p.tasks|
  {
    p.(tasks := p.tasks[t := task])
  }

  function Next(p: Pool, s: Step): Pool
    requires Enabled(p, s) && (s.Pop? ==> p.free != [])
  {
    match s
    case Request(t, storage) => Become(p, t, Wanting(storage))
    case Expire(t) => Become(p, t, Outside)
    case Take(t) => Become(p, t, Taken(p.tasks[t].storage)).(count := p.count - 1)
    case Pop(t) =>
      var id := p.free[0];
      Become(p, t, Filling(id, p.tasks[t].storage)).(free := p.free[1..], holder := p.holder[id := t])
    case Fill(t, memory) =>
      var id := p.tasks[t].id;
      if !p.tasks[t].storage then Become(p, t, Outside)
      else if memory then Become(p, t, Outside).(stored := p.stored + {id})
      else Become(p, t, Releasing(id))
    case Pass(t, u, id) => p.(holder := p.holder[id := u])
    case Release(t, id) => Become(p, t, Releasing(id)).(stored := p.stored - {id})
    case Insert(t) =>
      var id := p.tasks[t].id;
      if id in p.free then Become(p, t, Outside)
      else Become(p, t, Giving).(free := p.free + [id], holder := p.holder - {id})
    case Give(t) => Become(p, t, Outside).(count := Min(p.count + 1, p.limit))
  }

  // ---- The invariant --------------------------------------------------------------------

  /** Such a task stands for a free descriptor that the semaphore does not count. */
  predicate Between(task: Task) {
    task.Taken? || task.Giving?
  }

  /** Every descriptor is in the free list, once, or with one holder. */
  ghost predicate Conserved(free: seq<nat>, holder: map<nat, nat>, limit: nat) {
    && NoDup(free)
    && (forall id: nat :: id in free || id in holder <==> id < limit)
    && (forall id :: id in free ==> id !in holder)
  }

  /** Descriptors in the pool own no storage; a descriptor that is being filled or released belongs
      to its task, or is in the pool already. */
  ghost predicate InHand(p: Pool) {
    && (forall id :: id in p.free ==> id !in p.stored)
    && (forall t :: 0 <= t < |p.tasks| && p.tasks[t].Filling? ==>
          p.tasks[t].id in p.holder && p.holder[p.tasks[t].id] == t && p.tasks[t].id !in p.stored)
    && (forall t :: 0 <= t < |p.tasks| && p.tasks[t].Releasing? ==>
          p.tasks[t].id in p.holder && p.holder[p.tasks[t].id] == t ==> p.tasks[t].id !in p.stored)
  }

  ghost predicate Good(p: Pool) {
    && Conserved(p.free, p.holder, p.limit)
    && |p.free| == p.count + Count(p.tasks, Between)
    && InHand(p)
  }

  /** The free list is never longer than the number of descriptors. */
  lemma {:induction false} FreeFits(free: seq<nat>, limit: nat)
    requires NoDup(free) && forall id :: id in free ==> id < limit
    ensures |free| <= limit
    decreases limit
  {
    if free != [] {
      if limit - 1 in free {
        WithoutHighest(free, limit - 1);
        FreeFits(Without<nat>(free, limit - 1), limit - 1);
      } else {
        assert free[0] in free;
        FreeFits(free, limit - 1);
      }
    }
  }

  lemma WithoutHighest(free: seq<nat>, highest: nat)
    requires NoDup(free) && highest in free && forall id :: id in free ==> id <= highest
    ensures var rest := Without<nat>(free, highest);
      NoDup(rest) && |rest| == |free| - 1 && forall id :: id in rest ==> id < highest
  {
    var i :| 0 <= i < |free| && free[i] == highest;
    WithoutAt(free, i);
    WithoutMember(free, highest, highest);
    hide NoDup;
    forall id | id in Without<nat>(free, highest) ensures id < highest {
      WithoutMember(free, highest, id);
    }
  }

  lemma SomeBetween(tasks: seq<Task>, t: nat)
    requires t < |tasks| && Between(tasks[t])
    ensures Count(tasks, Between) > 0
  {
    CountNone(tasks, Between);
  }

  /** Past the semaphore there is always a descriptor. */
  lemma PopFinds(p: Pool, t: nat)
    requires Good(p) && Enabled(p, Pop(t))
    ensures p.free != []
  {
    SomeBetween(p.tasks, t);
  }

  /** The semaphore is never given beyond its limit. */
  lemma GiveCounts(p: Pool, t: nat)
    requires Good(p) && Enabled(p, Give(t))
    ensures p.count < p.limit
  {
    SomeBetween(p.tasks, t);
    FreeFits(p.free, p.limit);
  }

  lemma PopConserved(free: seq<nat>, holder: map<nat, nat>, limit: nat, t: nat)
    requires Conserved(free, holder, limit) && free != []
    ensures Conserved(free[1..], holder[free[0] := t], limit)
  {
    var id := free[0];
    assert free == [id] + free[1..];
    forall k | 0 <= k < |free[1..]| ensures free[1..][k] != id {
      assert free[1..][k] == free[k + 1];
    }
    assert id in free && id !in free[1..];
    var holder' := holder[id := t];
    assert forall x :: x in free <==> x == id || x in free[1..];
    assert forall x :: x in holder' <==> x == id || x in holder;
    assert NoDup(free[1..]);
  }

  lemma InsertConserved(free: seq<nat>, holder: map<nat, nat>, limit: nat, id: nat)
    requires Conserved(free, holder, limit) && id in holder
    ensures Conserved(free + [id], holder - {id}, limit)
  {}

  lemma StepCounts(p: Pool, s: Step)
    requires Good(p) && Enabled(p, s)
    ensures s.Pop? ==> p.free != []
    ensures var p' := Next(p, s);
      |p'.free| == p'.count + Count(p'.tasks, Between) && p'.limit == p.limit
  {
    hide Conserved, InHand;
    if s.Pop? {
      PopFinds(p, s.t);
    }
    if s.Give? {
      GiveCounts(p, s.t);
    }
    var p' := Next(p, s);
    CountChanged(p.tasks, s.t, p'.tasks[s.t], Between);
  }

  lemma StepConserved(p: Pool, s: Step)
    requires Conserved(p.free, p.holder, p.limit) && Enabled(p, s) && (s.Pop? ==> p.free != [])
    ensures Conserved(Next(p, s).free, Next(p, s).holder, p.limit)
  {
    match s
    case Pop(t) => PopConserved(p.free, p.holder, p.limit, t);
    case Insert(t) =>
      if p.tasks[t].id !in p.free {
        InsertConserved(p.free, p.holder, p.limit, p.tasks[t].id);
      }
    case _ =>
  }

  lemma StepInHand(p: Pool, s: Step)
    requires Conserved(p.free, p.holder, p.limit) && InHand(p) && Enabled(p, s) && (s.Pop? ==> p.free != [])
    ensures InHand(Next(p, s))
  {
    if s.Pop? {
      assert p.free[0] in p.free && p.free == [p.free[0]] + p.free[1..];
    }
  }

  /** Every step keeps the balance: the free descriptors are those the semaphore counts, and one for
      each task between the semaphore and the list. */
  lemma StepGood(p: Pool, s: Step)
    requires Good(p) && Enabled(p, s)
    ensures s.Pop? ==> p.free != []
    ensures Good(Next(p, s))
  {
    hide Conserved, InHand, Next, Enabled;
    StepCounts(p, s);
    StepConserved(p, s);
    StepInHand(p, s);
  }

  // ---- Every run ------------------------------------------------------------------------

  /** Taking the head of an empty list may lead anywhere. */
  ghost predicate StepOf(p: Pool, s: Step, p': Pool) {
    Enabled(p, s) && ((s.Pop? ==> p.free != []) ==> p' == Next(p, s))
  }

  ghost predicate Run(states: seq<Pool>, steps: seq<Step>) {
    && |states| == |steps| + 1
    && forall i :: 0 <= i < |steps| ==> StepOf(states[i], steps[i], states[i + 1])
  }

  /** After xNetworkBuffersInitialise: every descriptor is free. */
  function Start(count: nat, tasks: nat): Pool {
    Pool(seq(count, i => i), count, count, map[], {}, seq(tasks, _ => Outside))
  }

  lemma StartGood(count: nat, tasks: nat)
    ensures Good(Start(count, tasks))
  {
    var p := Start(count, tasks);
    CountNone(p.tasks, Between);
    forall id: nat ensures id in p.free <==> id < count {
      if id < count {
        assert p.free[id] == id;
      }
    }
  }

  lemma {:induction false} RunGood(states: seq<Pool>, steps: seq<Step>, i: nat)
    requires Run(states, steps) && i < |states| && Good(states[0])
    ensures Good(states[i])
    decreases i
  {
    hide Good, StepOf;
    if i > 0 {
      RunGood(states, steps, i - 1);
      StepOfGood(states[i - 1], steps[i - 1], states[i]);
    }
  }

  lemma StepOfGood(p: Pool, s: Step, p': Pool)
    requires Good(p) && StepOf(p, s, p')
    ensures Good(p')
  {
    hide Good, Enabled, Next;
    StepGood(p, s);
  }

  /** In every interleaving of any number of tasks: whoever is past the semaphore finds the free list
      not empty and a descriptor without storage; every descriptor is in one place; and the free ones
      are those the semaphore counts plus one for each task between semaphore and list. */
  lemma PoolSafe(states: seq<Pool>, steps: seq<Step>, i: nat, count: nat, tasks: nat)
    requires Run(states, steps) && i < |states| && states[0] == Start(count, tasks)
    ensures var p := states[i];
      && Conserved(p.free, p.holder, p.limit)
      && |p.free| == p.count + Count(p.tasks, Between)
      && (forall t :: Enabled(p, Pop(t)) ==> p.free != [] && p.free[0] !in p.stored)
  {
    hide Conserved, StepOf;
    StartGood(count, tasks);
    RunGood(states, steps, i);
    var p := states[i];
    forall t | Enabled(p, Pop(t)) ensures p.free != [] && p.free[0] !in p.stored {
      PopFinds(p, t);
      assert p.free[0] in p.free;
    }
  }

  /** Whoever has been passed a descriptor may release it, and that returns it to the pool like a
      release by the task that obtained it. */
  lemma PassedOn(p: Pool, t: nat, u: nat, id: nat)
    requires Good(p) && Enabled(p, Pass(t, u, id)) && p.tasks[u].Outside?
    ensures var q := Next(p, Pass(t, u, id)); Good(q) && Enabled(q, Release(u, id))
    ensures var r := Next(Next(p, Pass(t, u, id)), Release(u, id));
      && Enabled(r, Insert(u)) && Enabled(Next(r, Insert(u)), Give(u))
      && var q := Next(Next(r, Insert(u)), Give(u));
      q.free == p.free + [id] && q.count == p.count + 1 && q.tasks == p.tasks && id !in q.holder && id !in q.stored
  {
    StepGood(p, Pass(t, u, id));
    var q := Next(p, Pass(t, u, id));
    StepGood(q, Release(u, id));
    var r := Next(q, Release(u, id));
    StepGood(r, Insert(u));
    GiveCounts(Next(r, Insert(u)), u);
  }

  /** Releasing a descriptor that is in the free list already does not give the semaphore again: the
      whole release leaves list, semaphore and ownership alone. */
  lemma ReleaseTwice(p: Pool, t: nat, id: nat)
    requires Good(p) && Enabled(p, Release(t, id)) && id in p.free
    ensures var q := Next(p, Release(t, id));
      && Enabled(q, Insert(t))
      && Next(q, Insert(t)) == p
  {}

  /** A request while the semaphore counts anything gets the first free descriptor, with storage if it
      asked for it; if there is no memory for that, the descriptor goes back to the end of the list and
      the semaphore counts as before. */
  lemma Obtained(p: Pool, t: nat, storage: bool, memory: bool) returns (q: Pool)
    requires Good(p) && t < |p.tasks| && p.tasks[t].Outside? && p.count > 0
    ensures p.free != [] && Enabled(p, Request(t, storage))
    ensures var a := Next(p, Request(t, storage));
      && Enabled(a, Take(t))
      && var b := Next(a, Take(t));
      && Enabled(b, Pop(t)) && b.free != []
      && var c := Next(b, Pop(t));
      && Enabled(c, Fill(t, memory))
      && var d := Next(c, Fill(t, memory));
      if storage && !memory then
        Enabled(d, Insert(t)) && Enabled(Next(d, Insert(t)), Give(t)) && q == Next(Next(d, Insert(t)), Give(t))
      else q == d
    ensures Good(q) && q.tasks == p.tasks && |q.free| == |p.free| - (if storage && !memory then 0 else 1)
    ensures var id := p.free[0];
      if storage && !memory then
        q.free == p.free[1..] + [id] && q.count == p.count && q.stored == p.stored && id !in q.holder
      else
        && q.free == p.free[1..] && q.count == p.count - 1 && id in q.holder && q.holder[id] == t
        && q.stored == (if storage then p.stored + {id} else p.stored)
  {
    hide Good, Count, NoDup;
    var a := Next(p, Request(t, storage));
    StepGood(p, Request(t, storage));
    var b := Next(a, Take(t));
    StepGood(a, Take(t));
    StepGood(b, Pop(t));
    var c := Next(b, Pop(t));
    StepGood(c, Fill(t, memory));
    q := Next(c, Fill(t, memory));
    if storage && !memory {
      FirstGone(p);
      StepGood(q, Insert(t));
      q := Next(q, Insert(t));
      GiveCounts(q, t);
      StepGood(q, Give(t));
      q := Next(q, Give(t));
    }
    assert q.tasks == p.tasks;
  }

  lemma FirstGone(p: Pool)
    requires Good(p) && p.free != []
    ensures p.free[0] !in p.free[1..]
  {}
}
