/** The lwIP resolver's table of queries (lwip/src/core/dns.c): entries that ask, retry, change
    server, time out, or are answered. Callbacks do not call the resolver again. */
module Resolver {
  import opened Common

  const MAX_RETRIES: byte := 4
  const MAX_NAME_LENGTH := 256
  const MAX_TTL: uint32 := 604800

  datatype State = Unused | New | Asking | Done

  /** found names the query that is waiting for a callback, if it wants one. */
  datatype Entry = Entry(state: State, numdns: nat, tmr: byte, retries: byte, seqno: byte, ttl: uint32,
                         name: string, address: uint32, found: Option<nat>)

  /** A callback that has been made: the query and its address, if there is one. */
  datatype Call = Call(query: nat, address: Option<uint32>)

  /** servers says which servers have an address. */
  datatype Table = Table(entries: seq<Entry>, seqno: byte, servers: seq<bool>, calls: seq<Call>)

  /** What a message in answer to a query amounts to. */
  datatype Reply = Answer(ttl: uint32, address: uint32) | Error

  // ---- One entry ------------------------------------------------------------------------

  function Minus(n: int, modulus: int): int
    requires 0 <= n < modulus
  {
    if n == 0 then modulus - 1 else n - 1
  }

  function Flushed(e: Entry): Entry {
    e.(state := Unused, found := None)
  }

  function Callback(e: Entry, address: Option<uint32>): seq<Call> {
    if e.found.Some? then [Call(e.found.value, address)] else []
  }

  predicate HasServer(servers: seq<bool>, n: nat) {
    n < |servers| && servers[n]
  }

  /** The end of a waiting period: try again, the next server, or give up. */
  function Retried(e: Entry, servers: seq<bool>): (Entry, seq<Call>) {
    var retries := (e.retries + 1) % 256;
    if retries != MAX_RETRIES then (e.(retries := retries, tmr := retries), [])
    else if HasServer(servers, e.numdns + 1) then (e.(numdns := e.numdns + 1, tmr := 1, retries := 0), [])
    else (Flushed(e.(retries := retries)), Callback(e, None))
  }

  /** dns_check_entry: the entry a tick later, and the callback it makes. */
  function Checked(e: Entry, servers: seq<bool>): (Entry, seq<Call>) {
    match e.state
    case Unused => (e, [])
    case New => (e.(state := Asking, numdns := 0, tmr := 1, retries := 0), [])
    case Asking =>
      var waited := e.(tmr := Minus(e.tmr, 256));
      if waited.tmr == 0 then Retried(waited, servers) else (waited, [])
    case Done =>
      var aged := e.(ttl := Minus(e.ttl, 0x1_0000_0000));
      (if aged.ttl == 0 then Flushed(aged) else aged, [])
  }

  /** dns_recv for an entry that is asking. */
  function Received(e: Entry, reply: Reply): (Entry, seq<Call>) {
    match reply
    case Answer(ttl, address) =>
      (e.(state := Done, ttl := Min(ttl, MAX_TTL), address := address), Callback(e, Some(address)))
    case Error => (Flushed(e), Callback(e, None))
  }

  // ---- The table ------------------------------------------------------------------------

  function Check(t: Table, i: nat): Table
    requires i < |t.entries|
  {
    var (e, calls) := Checked(t.entries[i], t.servers);
    t.(entries := t.entries[i := e], calls := t.calls + calls)
  }

  /** dns_check_entries, from entry i on. */
  function TickFrom(t: Table, i: nat): (r: Table)
    requires i <= |t.entries|
    ensures |r.entries| == |t.entries| && r.servers == t.servers && r.seqno == t.seqno
    decreases |t.entries| - i
  {
    if i == |t.entries| then t else TickFrom(Check(t, i), i + 1)
  }

  function Tick(t: Table): Table {
    TickFrom(t, 0)
  }

  /** dns_recv: a message for entry i; ids out of range and entries that do not ask are ignored. */
  function Receive(t: Table, i: nat, reply: Reply): Table {
    if i >= |t.entries| || !t.entries[i].state.Asking? then t
    else
      var (e, calls) := Received(t.entries[i], reply);
      t.(entries := t.entries[i := e], calls := t.calls + calls)
  }

  /** The search of dns_enqueue from entry i on: the first unused entry, or else the completed one with
      the greatest distance to the counter, which starts out as entry 0. */
  function SlotFrom(t: Table, i: nat, age: int, oldest: nat): (r: nat)
    requires i <= |t.entries|
    decreases |t.entries| - i
  {
    if i == |t.entries| then oldest
    else if t.entries[i].state.Unused? then i
    else if t.entries[i].state.Done? && t.seqno - t.entries[i].seqno > age
    then SlotFrom(t, i + 1, t.seqno - t.entries[i].seqno, i)
    else SlotFrom(t, i + 1, age, oldest)
  }

  /** The entry a new query goes into, if any. */
  function Slot(t: Table): (r: Option<nat>)
    ensures r.Some? ==> r.value < |t.entries| && (t.entries[r.value].state.Unused? || t.entries[r.value].state.Done?)
  {
    var i := SlotFrom(t, 0, 0, 0);
    if i < |t.entries| && (t.entries[i].state.Unused? || t.entries[i].state.Done?) then Some(i) else None
  }

  /** An entry filled for a new query; too long a name is cut. */
  function Queued(e: Entry, seqno: byte, name: string, found: Option<nat>): Entry {
    e.(state := New, seqno := seqno, found := found, name := name[..Min(|name|, MAX_NAME_LENGTH - 1)])
  }

  /** dns_enqueue: false stands for ERR_MEM, true for ERR_INPROGRESS. */
  function Enqueue(t: Table, name: string, found: Option<nat>): (Table, bool) {
    match Slot(t)
    case None => (t, false)
    case Some(i) =>
      var e := Queued(t.entries[i], t.seqno, name, found);
      (Check(t.(entries := t.entries[i := e], seqno := (t.seqno + 1) % 256), i), true)
  }

  // ---- How long an entry waits ----------------------------------------------------------

  /** The counters of an entry that is asking; no entry is left new. */
  predicate Timed(e: Entry) {
    && !e.state.New?
    && (e.state.Asking? ==> e.retries < MAX_RETRIES && 1 <= e.tmr <= Max(1, e.retries))
  }

  /** The ticks left with the current server: what is left of this waiting period, and the longer
      ones after it. */
  function Rest(e: Entry): nat
    requires e.retries < MAX_RETRIES
  {
    e.tmr + if e.retries == 0 then 6 else if e.retries == 1 then 5 else if e.retries == 2 then 3 else 0
  }

  /** How many servers with an address follow server n without a gap. */
  function More(servers: seq<bool>, n: nat): (r: nat)
    ensures n < |servers| ==> r < |servers| - n
    ensures n >= |servers| ==> r == 0
    decreases |servers| - n
  {
    if HasServer(servers, n + 1) then 1 + More(servers, n + 1) else 0
  }

  function Left(e: Entry, servers: seq<bool>): nat
    requires e.retries < MAX_RETRIES
  {
    Rest(e) + 7 * More(servers, e.numdns)
  }

  /** One tick brings an entry that is asking one tick nearer to its end; the end is a callback
      without an address. */
  lemma CheckedLeft(e: Entry, servers: seq<bool>)
    requires Timed(e) && e.state.Asking?
    ensures var (e', calls) := Checked(e, servers);
      if Left(e, servers) > 1
      then Timed(e') && e'.state.Asking? && e'.found == e.found && Left(e', servers) == Left(e, servers) - 1
        && calls == []
      else e' == Flushed(e') && calls == Callback(e, None)
  {}

  /** How many ticks a completed entry lasts. The counter is taken down before it is compared, so a
      time to live of 0 lasts longest. */
  function Lifetime(e: Entry): nat {
    if e.ttl == 0 then 0x1_0000_0000 else e.ttl
  }

  /** One tick brings a completed entry one tick nearer to being flushed. */
  lemma DoneLeft(e: Entry, servers: seq<bool>)
    requires e.state.Done?
    ensures var (e', calls) := Checked(e, servers);
      && calls == []
      && if Lifetime(e) > 1 then e'.state.Done? && Lifetime(e') == Lifetime(e) - 1 && e' == e.(ttl := e'.ttl)
         else e' == Flushed(e')
  {}

  lemma CheckedTimed(e: Entry, servers: seq<bool>)
    requires Timed(e) || e.state.New?
    ensures Timed(Checked(e, servers).0)
  {}

  /** A new query waits 7 ticks for each server that has an address, and no longer. */
  lemma NewLeft(e: Entry, servers: seq<bool>)
    requires e.state.New? && servers != []
    ensures var (e', calls) := Checked(e, servers);
      && Timed(e') && e'.state.Asking? && e'.found == e.found && calls == []
      && Left(e', servers) == 7 * (1 + More(servers, 0)) <= 7 * |servers|
  {}

  // ---- Queries and callbacks ------------------------------------------------------------

  /** The entry waits for the callback of query q. */
  function Waits(q: nat): Entry -> bool {
    (e: Entry) => e.state.Asking? && e.found == Some(q)
  }

  /** The callback is that of query q. */
  function Answers(q: nat): Call -> bool {
    (c: Call) => c.query == q
  }

  /** Of the n times that query q has been accepted, each is waiting in one entry or has had its one
      callback. */
  ghost predicate Accounted(t: Table, q: nat, n: nat) {
    Count(t.entries, Waits(q)) + Count(t.calls, Answers(q)) == n
  }

  ghost predicate AllTimed(entries: seq<Entry>) {
    forall k :: 0 <= k < |entries| ==> Timed(entries[k])
  }

  function One(b: bool): nat {
    if b then 1 else 0
  }

  function CallsFor(calls: seq<Call>, q: nat): nat
    requires |calls| <= 1
  {
    One(calls != [] && calls[0].query == q)
  }

  /** An entry is replaced, and perhaps a callback made. */
  lemma Replaced(t: Table, i: nat, e: Entry, calls: seq<Call>, q: nat)
    requires i < |t.entries| && |calls| <= 1
    ensures var t' := t.(entries := t.entries[i := e], calls := t.calls + calls);
      Count(t'.entries, Waits(q)) + Count(t'.calls, Answers(q)) + One(Waits(q)(t.entries[i]))
      == Count(t.entries, Waits(q)) + Count(t.calls, Answers(q)) + One(Waits(q)(e)) + CallsFor(calls, q)
  {
    CountChanged(t.entries, i, e, Waits(q));
    if calls == [] {
      assert t.calls + calls == t.calls;
    } else {
      assert calls == [calls[0]];
      CountAppend(t.calls, calls[0], Answers(q));
    }
  }

  /** Checking an entry answers a query exactly if the entry stops waiting for it. */
  lemma CheckedWaits(e: Entry, servers: seq<bool>, q: nat)
    requires !e.state.New?
    ensures var (e', calls) := Checked(e, servers);
      |calls| <= 1 && One(Waits(q)(e)) == One(Waits(q)(e')) + CallsFor(calls, q)
  {}

  lemma ReceivedWaits(e: Entry, reply: Reply, q: nat)
    requires e.state.Asking?
    ensures var (e', calls) := Received(e, reply);
      |calls| <= 1 && Timed(e') && One(Waits(q)(e)) == One(Waits(q)(e')) + CallsFor(calls, q)
  {}

  lemma CheckKeeps(t: Table, i: nat, q: nat, n: nat)
    requires i < |t.entries| && Accounted(t, q, n) && AllTimed(t.entries)
    ensures Accounted(Check(t, i), q, n) && AllTimed(Check(t, i).entries)
  {
    hide Checked, Waits, Answers, Count, CallsFor;
    var (e, calls) := Checked(t.entries[i], t.servers);
    CheckedWaits(t.entries[i], t.servers, q);
    CheckedTimed(t.entries[i], t.servers);
    Replaced(t, i, e, calls, q);
  }

  lemma {:induction false} TickKeeps(t: Table, i: nat, q: nat, n: nat)
    requires i <= |t.entries| && Accounted(t, q, n) && AllTimed(t.entries)
    ensures Accounted(TickFrom(t, i), q, n) && AllTimed(TickFrom(t, i).entries)
    decreases |t.entries| - i
  {
    hide Accounted, AllTimed, Checked;
    if i < |t.entries| {
      CheckKeeps(t, i, q, n);
      TickKeeps(Check(t, i), i + 1, q, n);
    }
  }

  lemma ReceiveKeeps(t: Table, i: nat, reply: Reply, q: nat, n: nat)
    requires Accounted(t, q, n) && AllTimed(t.entries)
    ensures Accounted(Receive(t, i, reply), q, n) && AllTimed(Receive(t, i, reply).entries)
  {
    hide Received, Waits, Answers, Count, CallsFor, Timed;
    if i < |t.entries| && t.entries[i].state.Asking? {
      var (e, calls) := Received(t.entries[i], reply);
      ReceivedWaits(t.entries[i], reply, q);
      Replaced(t, i, e, calls, q);
    }
  }

  /** A new query takes an entry that nobody waits for; every entry that is asking stays as it is. */
  lemma EnqueueSpares(t: Table, name: string, found: Option<nat>)
    ensures var (t', ok) := Enqueue(t, name, found);
      && |t'.entries| == |t.entries| && t'.servers == t.servers && t'.calls == t.calls
      && forall k :: 0 <= k < |t.entries| && t.entries[k].state.Asking? ==> t'.entries[k] == t.entries[k]
  {}

  lemma EnqueueKeeps(t: Table, name: string, found: Option<nat>, q: nat, n: nat)
    requires Accounted(t, q, n) && AllTimed(t.entries) && t.servers != []
    ensures var (t', ok) := Enqueue(t, name, found);
      AllTimed(t'.entries) && Accounted(t', q, n + One(ok && found == Some(q)))
  {
    hide Count, Answers, CallsFor;
    if Slot(t).Some? {
      var i := Slot(t).value;
      var e := Queued(t.entries[i], t.seqno, name, found);
      NewLeft(e, t.servers);
      var e' := Checked(e, t.servers).0;
      Replaced(t, i, e', [], q);
      assert t.entries[i := e][i := e'] == t.entries[i := e'];
      assert t.calls + [] == t.calls;
      NoCalls(q);
    }
  }

  lemma NoCalls(q: nat)
    ensures CallsFor([], q) == 0
  {}

  // ---- Which entry a query takes --------------------------------------------------------

  /** Entry i is the one to take among those from entry n on: the first unused one, or else the completed
      one with the lowest number below the counter, the first of them. */
  ghost predicate Chosen(t: Table, n: nat, i: nat)
    requires i < |t.entries|
  {
    var e := t.entries;
    if e[i].state.Unused? then forall k :: n <= k < i ==> !e[k].state.Unused?
    else
      && (forall k :: n <= k < |e| ==> !e[k].state.Unused?)
      && forall k :: n <= k < |e| && e[k].state.Done? && e[k].seqno < t.seqno ==>
           e[i].state.Done? && e[i].seqno <= e[k].seqno && (k < i ==> e[i].seqno < e[k].seqno)
  }

  lemma {:induction false} SlotChosen(t: Table, n: nat, age: int, oldest: nat)
    requires n <= |t.entries| && oldest < |t.entries| && 0 <= age && !t.entries[oldest].state.Unused?
    requires age > 0 ==> oldest < n && t.entries[oldest].state.Done? && age == t.seqno - t.entries[oldest].seqno
    ensures var i := SlotFrom(t, n, age, oldest); i < |t.entries| && Chosen(t, n, i)
    ensures var i := SlotFrom(t, n, age, oldest);
      !t.entries[i].state.Unused? && age > 0 ==> t.entries[i].state.Done? && t.seqno - t.entries[i].seqno >= age
    ensures var i := SlotFrom(t, n, age, oldest);
      !t.entries[i].state.Unused? && i != oldest ==>
        n <= i && t.entries[i].state.Done? && t.seqno - t.entries[i].seqno > age
    decreases |t.entries| - n
  {
    if n < |t.entries| && !t.entries[n].state.Unused? {
      if t.entries[n].state.Done? && t.seqno - t.entries[n].seqno > age {
        SlotChosen(t, n + 1, t.seqno - t.entries[n].seqno, n);
      } else {
        SlotChosen(t, n + 1, age, oldest);
      }
    }
  }

  /** A query takes the first unused entry; if there is none, the completed entry with the lowest number
      below the counter, or entry 0 if it is completed and no number is below the counter. */
  lemma SlotExact(t: Table)
    requires Slot(t).Some?
    ensures var i := Slot(t).value;
      && Chosen(t, 0, i) && (t.entries[i].state.Unused? || t.entries[i].state.Done?)
      && (t.entries[i].state.Unused? || t.entries[i].seqno < t.seqno || i == 0)
  {
    if t.entries[0].state.Unused? {
    } else {
      SlotChosen(t, 0, 0, 0);
    }
  }

  /** The entry then asks the first server, under the next number, for the name cut to what fits. */
  lemma EnqueueAsks(t: Table, name: string, found: Option<nat>)
    requires Slot(t).Some?
    ensures var i := Slot(t).value; var (t', ok) := Enqueue(t, name, found); var e := t'.entries[i];
      && ok && e.state.Asking? && e.found == found && e.seqno == t.seqno && e.numdns == 0
      && t'.seqno == (t.seqno + 1) % 256
      && e.name <= name && (|name| < MAX_NAME_LENGTH ==> e.name == name)
      && (|name| >= MAX_NAME_LENGTH ==> |e.name| == MAX_NAME_LENGTH - 1)
      && forall k :: 0 <= k < |t.entries| && k != i ==> t'.entries[k] == t.entries[k]
  {}

  // ---- When a query is refused ----------------------------------------------------------

  lemma {:induction false} SlotSearch(t: Table, i: nat, age: int, oldest: nat)
    requires i <= |t.entries| && 0 <= age
    ensures var r := SlotFrom(t, i, age, oldest);
      || (r == oldest && forall k :: i <= k < |t.entries| ==>
            !t.entries[k].state.Unused? && (t.entries[k].state.Done? ==> t.seqno - t.entries[k].seqno <= age))
      || (i <= r < |t.entries|
          && (t.entries[r].state.Unused? || (t.entries[r].state.Done? && t.seqno - t.entries[r].seqno > age)))
    decreases |t.entries| - i
  {
    if i < |t.entries| && !t.entries[i].state.Unused? {
      if t.entries[i].state.Done? && t.seqno - t.entries[i].seqno > age {
        SlotSearch(t, i + 1, t.seqno - t.entries[i].seqno, i);
      } else {
        SlotSearch(t, i + 1, age, oldest);
      }
    }
  }

  /** An entry that could be reused, as far as its state goes. */
  predicate Reusable(e: Entry) {
    e.state.Unused? || e.state.Done?
  }

  /** The counter of queries has 8 bits and is compared as it is. A query is refused although a
      completed entry could make way for it if and only if entry 0 is not one and every completed
      entry is numbered at or above the counter, as happens once the counter has wrapped. */
  lemma RefusedExact(t: Table)
    requires t.entries != []
    ensures Slot(t) == None <==>
      && !Reusable(t.entries[0])
      && forall k :: 0 <= k < |t.entries| ==>
           !t.entries[k].state.Unused? && (t.entries[k].state.Done? ==> t.seqno <= t.entries[k].seqno)
  {
    SlotSearch(t, 0, 0, 0);
  }

  /** A completed entry with the highest number never makes way for a query, unless it is entry 0. */
  lemma LastNumberKept(t: Table, k: nat, name: string, found: Option<nat>)
    requires 0 < k < |t.entries| && t.entries[k].state.Done? && t.entries[k].seqno == 255
    ensures Enqueue(t, name, found).0.entries[k] == t.entries[k]
  {
    SlotSearch(t, 0, 0, 0);
  }

  // ---- Every run ------------------------------------------------------------------------

  datatype Event = Query(name: string, found: Option<nat>) | Time | Message(i: nat, reply: Reply)

  function Next(t: Table, e: Event): Table {
    match e
    case Query(name, found) => Enqueue(t, name, found).0
    case Time => Tick(t)
    case Message(i, reply) => Receive(t, i, reply)
  }

  ghost predicate Run(states: seq<Table>, events: seq<Event>) {
    && |states| == |events| + 1
    && forall i :: 0 <= i < |events| ==> states[i + 1] == Next(states[i], events[i])
  }

  /** How often query q has been accepted in the first j steps. */
  function Accepted(states: seq<Table>, events: seq<Event>, q: nat, j: nat): nat
    requires j <= |events| && |states| == |events| + 1
  {
    if j == 0 then 0
    else Accepted(states, events, q, j - 1)
         + One(events[j - 1].Query? && events[j - 1].found == Some(q)
           && Enqueue(states[j - 1], events[j - 1].name, Some(q)).1)
  }

  function Start(size: nat, servers: seq<bool>): Table {
    Table(seq(size, _ => Entry(Unused, 0, 0, 0, 0, 0, "", 0, None)), 0, servers, [])
  }

  /** Exactly once over every run: each time a query has been accepted, it waits in one entry or its
      callback has been made once. */
  lemma {:induction false} ExactlyOnce(states: seq<Table>, events: seq<Event>, j: nat, q: nat, size: nat,
                                       servers: seq<bool>)
    requires Run(states, events) && j <= |events| && states[0] == Start(size, servers) && servers != []
    ensures Accounted(states[j], q, Accepted(states, events, q, j)) && AllTimed(states[j].entries)
    ensures states[j].servers == servers && |states[j].entries| == size
    decreases j
  {
    hide Accounted, AllTimed, Enqueue, Receive, TickFrom;
    if j == 0 {
      StartAccounted(size, servers, q);
    } else {
      ExactlyOnce(states, events, j - 1, q, size, servers);
      var t, n := states[j - 1], Accepted(states, events, q, j - 1);
      match events[j - 1]
      case Query(name, found) =>
        EnqueueKeeps(t, name, found, q, n);
        EnqueueSpares(t, name, found);
      case Time => TickKeeps(t, 0, q, n);
      case Message(i, reply) =>
        ReceiveKeeps(t, i, reply, q, n);
        ReceiveFrame(t, i, reply);
    }
  }

  lemma ReceiveFrame(t: Table, i: nat, reply: Reply)
    ensures var t' := Receive(t, i, reply); t'.servers == t.servers && |t'.entries| == |t.entries|
  {}

  lemma StartAccounted(size: nat, servers: seq<bool>, q: nat)
    ensures Accounted(Start(size, servers), q, 0) && AllTimed(Start(size, servers).entries)
  {
    CountNone(Start(size, servers).entries, Waits(q));
  }

  // ---- In time --------------------------------------------------------------------------

  /** The entry waits for the callback of query q, with more than n ticks to go. */
  function WaitsLong(q: nat, n: nat, servers: seq<bool>): Entry -> bool {
    (e: Entry) => e.state.Asking? && e.found == Some(q) && e.retries < MAX_RETRIES && Left(e, servers) > n
  }

  lemma {:induction false} CountLess<T>(s: seq<T>, p: T -> bool, t: seq<T>, p': T -> bool)
    requires |s| == |t| && forall k :: 0 <= k < |s| && p(s[k]) ==> p'(t[k])
    ensures Count(s, p) <= Count(t, p')
  {
    if s != [] {
      assert forall k :: 0 <= k < |s[1..]| ==> s[1..][k] == s[k + 1] && t[1..][k] == t[k + 1];
      CountLess(s[1..], p, t[1..], p');
    }
  }

  /** No entry has more than 7 ticks to go for each server. */
  lemma LeftBound(e: Entry, servers: seq<bool>)
    requires Timed(e) && e.state.Asking? && servers != []
    ensures 1 <= Left(e, servers) <= 7 * |servers|
  {}

  lemma {:induction false} TickAt(t: Table, i: nat, k: nat)
    requires i <= |t.entries| && k < |t.entries|
    ensures TickFrom(t, i).entries[k] == if i <= k then Checked(t.entries[k], t.servers).0 else t.entries[k]
    decreases |t.entries| - i
  {
    hide Checked;
    if i < |t.entries| {
      TickAt(Check(t, i), i + 1, k);
    }
  }

  /** Time passes for every entry that waits. */
  lemma TickLong(t: Table, q: nat, n: nat)
    requires AllTimed(t.entries)
    ensures Count(Tick(t).entries, WaitsLong(q, if n == 0 then 0 else n - 1, t.servers))
         <= Count(t.entries, WaitsLong(q, n, t.servers))
  {
    hide Count, TickFrom, Left;
    var m := if n == 0 then 0 else n - 1;
    forall k | 0 <= k < |t.entries| && WaitsLong(q, m, t.servers)(Tick(t).entries[k])
      ensures WaitsLong(q, n, t.servers)(t.entries[k])
    {
      TickAt(t, 0, k);
      CheckedLong(t.entries[k], t.servers, q, n, m);
    }
    CountLess(Tick(t).entries, WaitsLong(q, m, t.servers), t.entries, WaitsLong(q, n, t.servers));
  }

  lemma CheckedLong(e: Entry, servers: seq<bool>, q: nat, n: nat, m: nat)
    requires Timed(e) && m == (if n == 0 then 0 else n - 1)
    requires WaitsLong(q, m, servers)(Checked(e, servers).0)
    ensures WaitsLong(q, n, servers)(e)
  {
    if e.state.Asking? {
      CheckedLeft(e, servers);
    }
  }

  lemma ReceiveLong(t: Table, i: nat, reply: Reply, q: nat, n: nat)
    ensures Count(Receive(t, i, reply).entries, WaitsLong(q, n, t.servers))
      <= Count(t.entries, WaitsLong(q, n, t.servers))
  {
    hide Count, Left;
    CountLess(Receive(t, i, reply).entries, WaitsLong(q, n, t.servers), t.entries, WaitsLong(q, n, t.servers));
  }

  lemma EnqueueLong(t: Table, name: string, found: Option<nat>, q: nat, n: nat)
    requires t.servers != []
    ensures var (t', ok) := Enqueue(t, name, found);
      Count(t'.entries, WaitsLong(q, n, t.servers)) <= Count(t.entries, WaitsLong(q, n, t.servers))
        + One(ok && found == Some(q))
  {
    hide Count, Left;
    if Slot(t).Some? {
      var i := Slot(t).value;
      var e := Queued(t.entries[i], t.seqno, name, found);
      var e' := Checked(e, t.servers).0;
      CountChanged(t.entries, i, e', WaitsLong(q, n, t.servers));
      assert t.entries[i := e][i := e'] == t.entries[i := e'];
    }
  }

  function Ticks(events: seq<Event>, i: nat, j: nat): nat
    requires i <= j <= |events|
  {
    if i == j then 0 else Ticks(events, i, j - 1) + One(events[j - 1].Time?)
  }

  /** What is left of n ticks after those from step i to step j. */
  function Remaining(n: nat, events: seq<Event>, i: nat, j: nat): nat
    requires i <= j <= |events|
  {
    if n >= Ticks(events, i, j) then n - Ticks(events, i, j) else 0
  }

  /** Whoever waits longer than the ticks that have passed since step i leave has been accepted
      since then. */
  lemma {:induction false} WaitingSince(states: seq<Table>, events: seq<Event>, i: nat, j: nat, q: nat, size: nat,
                                        servers: seq<bool>)
    requires Run(states, events) && i <= j <= |events| && states[0] == Start(size, servers) && servers != []
    ensures Count(states[j].entries, WaitsLong(q, Remaining(7 * |servers|, events, i, j), servers))
         <= Accepted(states, events, q, j) - Accepted(states, events, q, i)
    decreases j
  {
    hide Count, Enqueue, Receive, TickFrom, WaitsLong, AllTimed, Accounted;
    ExactlyOnce(states, events, if i == j then j else j - 1, q, size, servers);
    if i == j {
      NoneLonger(states[i], q);
    } else {
      WaitingSince(states, events, i, j - 1, q, size, servers);
      var t, n := states[j - 1], Remaining(7 * |servers|, events, i, j - 1);
      match events[j - 1]
      case Query(name, found) => EnqueueLong(t, name, found, q, n);
      case Time => TickLong(t, q, n);
      case Message(l, reply) => ReceiveLong(t, l, reply, q, n);
    }
  }

  lemma NoneLonger(t: Table, q: nat)
    requires AllTimed(t.entries) && t.servers != []
    ensures Count(t.entries, WaitsLong(q, 7 * |t.servers|, t.servers)) == 0
  {
    hide Left, Count;
    CountNone(t.entries, WaitsLong(q, 7 * |t.servers|, t.servers));
    forall k | 0 <= k < |t.entries| ensures !WaitsLong(q, 7 * |t.servers|, t.servers)(t.entries[k]) {
      if t.entries[k].state.Asking? {
        LeftBound(t.entries[k], t.servers);
      }
    }
  }

  lemma AllLonger(t: Table, q: nat)
    requires AllTimed(t.entries) && t.servers != []
    ensures Count(t.entries, Waits(q)) <= Count(t.entries, WaitsLong(q, 0, t.servers))
  {
    hide Left, Count;
    forall k | 0 <= k < |t.entries| && Waits(q)(t.entries[k]) ensures WaitsLong(q, 0, t.servers)(t.entries[k]) {
      LeftBound(t.entries[k], t.servers);
    }
    CountLess(t.entries, Waits(q), t.entries, WaitsLong(q, 0, t.servers));
  }

  /** Liveness: whatever else happens, 7 ticks for each server after step i every query that had been
      accepted by then has had its callback, by an answer, an error or a timeout, as often as it had
      been accepted. */
  lemma CallbackInTime(states: seq<Table>, events: seq<Event>, i: nat, j: nat, q: nat, size: nat, servers: seq<bool>)
    requires Run(states, events) && i <= j <= |events| && states[0] == Start(size, servers) && servers != []
    requires Ticks(events, i, j) >= 7 * |servers|
    ensures Accepted(states, events, q, i) <= Count(states[j].calls, Answers(q)) <= Accepted(states, events, q, j)
  {
    hide Count, WaitsLong, AllTimed, Accepted;
    ExactlyOnce(states, events, j, q, size, servers);
    WaitingSince(states, events, i, j, q, size, servers);
    AllLonger(states[j], q);
  }

  // ---- Where callbacks come from --------------------------------------------------------

  /** The entry asks for query q. */
  predicate AsksFor(e: Entry, q: nat) {
    e.state.Asking? && e.found == Some(q)
  }

  /** The next tick ends the entry's wait. */
  predicate Ending(e: Entry, servers: seq<bool>) {
    e.retries < MAX_RETRIES && Left(e, servers) == 1
  }

  /** The step makes the callback: with an address only if an answer with that address comes for an entry
      that asks for the query, without one only if an error comes for it or its time is up. */
  ghost predicate Makes(t: Table, e: Event, c: Call) {
    match e
    case Query(_, _) => false
    case Time =>
      && c.address == None
      && exists k :: 0 <= k < |t.entries| && AsksFor(t.entries[k], c.query) && Ending(t.entries[k], t.servers)
    case Message(k, reply) =>
      && k < |t.entries| && AsksFor(t.entries[k], c.query)
      && c.address == match reply
                      case Answer(_, a) => Some(a)
                      case Error => None
  }

  lemma CheckedCall(e: Entry, servers: seq<bool>)
    requires Timed(e)
    ensures var calls := Checked(e, servers).1;
      |calls| <= 1 && (calls != [] ==> calls[0].address == None && AsksFor(e, calls[0].query) && Ending(e, servers))
  {
    if e.state.Asking? {
      CheckedLeft(e, servers);
    }
  }

  lemma {:induction false} TickCalls(t: Table, i: nat, n: nat) returns (k: nat)
    requires i <= |t.entries| && AllTimed(t.entries) && |t.calls| <= n < |TickFrom(t, i).calls|
    ensures k < |t.entries|
    ensures var c := TickFrom(t, i).calls[n];
      c.address == None && AsksFor(t.entries[k], c.query) && Ending(t.entries[k], t.servers)
    ensures i <= k
    decreases |t.entries| - i
  {
    hide Checked, Ending, Left, Timed;
    if i < |t.entries| {
      CheckedCall(t.entries[i], t.servers);
      CheckedTimed(t.entries[i], t.servers);
      TickGrows(Check(t, i), i + 1);
      if n < |Check(t, i).calls| {
        k := i;
      } else {
        k := TickCalls(Check(t, i), i + 1, n);
      }
    } else {
      assert false;
    }
  }

  lemma {:induction false} TickGrows(t: Table, i: nat)
    requires i <= |t.entries|
    ensures t.calls <= TickFrom(t, i).calls
    decreases |t.entries| - i
  {
    hide Checked;
    if i < |t.entries| {
      TickGrows(Check(t, i), i + 1);
      PrefixTransitive(t.calls, Check(t, i).calls, TickFrom(t, i).calls);
    }
  }

  lemma NextCalls(t: Table, e: Event, n: nat)
    requires AllTimed(t.entries)
    ensures t.calls <= Next(t, e).calls
    ensures |t.calls| <= n < |Next(t, e).calls| ==> Makes(t, e, Next(t, e).calls[n])
  {
    hide AllTimed, Checked, TickFrom, Ending;
    match e
    case Query(name, found) => EnqueueSpares(t, name, found);
    case Time =>
      TickGrows(t, 0);
      if |t.calls| <= n < |Tick(t).calls| {
        var k := TickCalls(t, 0, n);
      }
    case Message(k, reply) =>
  }

  /** Over every run, each callback has been made by a step that makes it: an address that is handed over
      is one that came in answer to this very query, and none is handed over only after an error or when
      the time is up. */
  lemma {:induction false} CallbackOrigin(states: seq<Table>, events: seq<Event>, j: nat, n: nat, size: nat,
                                          servers: seq<bool>) returns (i: nat)
    requires Run(states, events) && j <= |events| && states[0] == Start(size, servers) && servers != []
    requires n < |states[j].calls|
    ensures i < j && |states[i].calls| <= n < |states[i + 1].calls| && states[i + 1].calls <= states[j].calls
    ensures Makes(states[i], events[i], states[j].calls[n])
    decreases j
  {
    hide Makes, Next, AllTimed, Accounted;
    if j == 0 {
      assert false;
    } else {
      ExactlyOnce(states, events, j - 1, 0, size, servers);
      NextCalls(states[j - 1], events[j - 1], n);
      if n < |states[j - 1].calls| {
        i := CallbackOrigin(states, events, j - 1, n, size, servers);
        PrefixTransitive(states[i + 1].calls, states[j - 1].calls, states[j].calls);
      } else {
        i := j - 1;
      }
    }
  }

  // ---- Which server is asked ------------------------------------------------------------

  /** Whoever asks asks the first server, or one that has an address. */
  ghost predicate AsksServers(t: Table) {
    forall k :: 0 <= k < |t.entries| && t.entries[k].state.Asking? ==>
      var n := t.entries[k].numdns; n == 0 || (n < |t.servers| && t.servers[n])
  }

  /** A tick that ends a wait leaves no server out: the next one has no address. */
  lemma EndingExact(e: Entry, servers: seq<bool>)
    requires Timed(e) && e.state.Asking?
    ensures Ending(e, servers) <==>
      e.tmr == 1 && e.retries == MAX_RETRIES - 1 && !(e.numdns + 1 < |servers| && servers[e.numdns + 1])
  {}

  /** The servers are asked in order, each as long as its waiting periods last. */
  lemma NextServer(e: Entry, servers: seq<bool>)
    requires Timed(e) && e.state.Asking?
    ensures var e' := Checked(e, servers).0;
      e'.state.Asking? && e'.numdns != e.numdns ==>
        && e'.numdns == e.numdns + 1 < |servers| && servers[e'.numdns]
        && e.tmr == 1 && e.retries == MAX_RETRIES - 1
  {}

  lemma {:induction false} TickServers(t: Table, i: nat)
    requires i <= |t.entries| && AllTimed(t.entries) && AsksServers(t)
    ensures AsksServers(TickFrom(t, i))
    decreases |t.entries| - i
  {
    if i < |t.entries| {
      CheckServers(t, i);
      TickServers(Check(t, i), i + 1);
    }
  }

  lemma CheckServers(t: Table, i: nat)
    requires i < |t.entries| && AllTimed(t.entries) && AsksServers(t)
    ensures AsksServers(Check(t, i)) && AllTimed(Check(t, i).entries)
  {
    hide Checked, Timed;
    CheckedTimed(t.entries[i], t.servers);
    CheckedServer(t.entries[i], t.servers);
  }

  lemma CheckedServer(e: Entry, servers: seq<bool>)
    requires Timed(e)
    ensures var e' := Checked(e, servers).0;
      e'.state.Asking? ==> e.state.Asking? && (e'.numdns == e.numdns || (e'.numdns < |servers| && servers[e'.numdns]))
  {}

  /** Over every run, only the first server and servers with an address are asked. */
  lemma {:induction false} RunServers(states: seq<Table>, events: seq<Event>, j: nat, size: nat, servers: seq<bool>)
    requires Run(states, events) && j <= |events| && states[0] == Start(size, servers) && servers != []
    ensures AsksServers(states[j])
    decreases j
  {
    hide TickFrom, AllTimed, Accounted, Enqueue;
    if j > 0 {
      ExactlyOnce(states, events, j - 1, 0, size, servers);
      RunServers(states, events, j - 1, size, servers);
      var t := states[j - 1];
      match events[j - 1]
      case Query(name, found) =>
        EnqueueSpares(t, name, found);
        QueryServers(t, name, found);
      case Time =>
        TickServers(t, 0);
      case Message(k, reply) =>
    }
  }

  lemma QueryServers(t: Table, name: string, found: Option<nat>)
    requires AsksServers(t)
    ensures AsksServers(Enqueue(t, name, found).0)
  {
    hide Slot;
    if Slot(t).Some? {
      SlotInside(t);
      EnqueueAsks(t, name, found);
    }
  }

  lemma SlotInside(t: Table)
    ensures Slot(t).Some? ==> Slot(t).value < |t.entries|
  {}

  // ---- How long an answer is kept -------------------------------------------------------

  /** An answer is handed to whoever waits, and kept with its time to live, a week at most. */
  lemma AnswerKept(t: Table, k: nat, ttl: uint32, address: uint32)
    requires k < |t.entries| && t.entries[k].state.Asking?
    ensures var t' := Next(t, Message(k, Answer(ttl, address))); var e := t'.entries[k];
      && e.state.Done? && e.address == address && e.name == t.entries[k].name && e.seqno == t.entries[k].seqno
      && Lifetime(e) == (if ttl == 0 then 0x1_0000_0000 else Min(ttl, MAX_TTL))
      && (t.entries[k].found.Some? ==> t'.calls == t.calls + [Call(t.entries[k].found.value, Some(address))])
      && forall m :: 0 <= m < |t.entries| && m != k ==> t'.entries[m] == t.entries[m]
  {}

  /** No query takes entry k from step i to step j. */
  ghost predicate Spared(states: seq<Table>, events: seq<Event>, i: nat, j: nat, k: nat)
    requires i <= j <= |events| < |states|
  {
    forall m :: i <= m < j && events[m].Query? ==> Slot(states[m]) != Some(k)
  }

  /** Over every run, a completed entry that is not taken for another query stays as it is for as many
      ticks as it has left, and no longer. */
  lemma {:induction false} AnswerLasts(states: seq<Table>, events: seq<Event>, i: nat, j: nat, k: nat)
    requires Run(states, events) && i <= j <= |events| && Spared(states, events, i, j, k)
    requires k < |states[i].entries| && states[i].entries[k].state.Done?
    requires Ticks(events, i, j) <= Lifetime(states[i].entries[k])
    ensures k < |states[j].entries|
    ensures var e, e' := states[i].entries[k], states[j].entries[k]; var left := Lifetime(e) - Ticks(events, i, j);
      if left == 0 then e'.state.Unused?
      else e'.state.Done? && e' == e.(ttl := e'.ttl) && Lifetime(e') == left
    decreases j - i
  {
    hide Enqueue, TickFrom, Checked, Lifetime, Slot;
    LifetimePositive(states[i].entries[k]);
    if i < j {
      AnswerLasts(states, events, i, j - 1, k);
      var t, e := states[j - 1], events[j - 1];
      match e
      case Query(name, found) => OthersStay(t, name, found, k);
      case Time =>
        TickAt(t, 0, k);
        if t.entries[k].state.Done? {
          DoneLeft(t.entries[k], t.servers);
        }
      case Message(m, reply) =>
    }
  }

  lemma LifetimePositive(e: Entry)
    ensures 0 < Lifetime(e)
  {}

  /** A query leaves every entry alone but the one it takes. */
  lemma OthersStay(t: Table, name: string, found: Option<nat>, k: nat)
    requires k < |t.entries| && Slot(t) != Some(k)
    ensures var t' := Enqueue(t, name, found).0; |t'.entries| == |t.entries| && t'.entries[k] == t.entries[k]
  {}

  // ---- A refusal ------------------------------------------------------------------------

  lemma RunOn(states: seq<Table>, events: seq<Event>, e: Event)
    requires Run(states, events)
    ensures Run(states + [Next(states[|events|], e)], events + [e])
  {
    hide Next;
  }

  /** An entry that has just been asked for. */
  function Asked(e: Entry, seqno: byte, name: string, found: Option<nat>): Entry {
    e.(state := Asking, numdns := 0, tmr := 1, retries := 0, seqno := seqno, found := found, name := name)
  }

  /** Where a query with a short name goes. */
  lemma AskAt(t: Table, i: nat, name: string, found: Option<nat>)
    requires i < |t.entries| && t.entries[i].state.Unused? && |name| < MAX_NAME_LENGTH
    requires forall k :: 0 <= k < i ==> t.entries[k].state.Asking?
    ensures Next(t, Query(name, found)) ==
      t.(entries := t.entries[i := Asked(t.entries[i], t.seqno, name, found)], seqno := (t.seqno + 1) % 256)
  {
    UnusedFound(t, 0, i);
    assert name[..|name|] == name;
    var none: seq<Call> := [];
    assert t.calls + none == t.calls;
    var e := Queued(t.entries[i], t.seqno, name, found);
    assert t.entries[i := e][i := Asked(t.entries[i], t.seqno, name, found)]
      == t.entries[i := Asked(t.entries[i], t.seqno, name, found)];
  }

  lemma {:induction false} UnusedFound(t: Table, k: nat, i: nat)
    requires k <= i < |t.entries| && t.entries[i].state.Unused?
    requires forall m :: k <= m < i ==> t.entries[m].state.Asking?
    ensures SlotFrom(t, k, 0, 0) == i
    decreases i - k
  {
    if k < i {
      UnusedFound(t, k + 1, i);
    }
  }

  /** A resolver with two entries after n queries that have been answered with an error. */
  function Served(n: nat): Table {
    var unused := Entry(Unused, 0, 0, 0, 0, 0, "", 0, None);
    Table([if n == 0 then unused else unused.(tmr := 1, seqno := (n - 1) % 256, name := "a"), unused], n % 256, [true],
      [])
  }

  lemma ServeOne(n: nat)
    ensures Next(Next(Served(n), Query("a", None)), Message(0, Error)) == Served(n + 1)
  {
    hide Enqueue;
    AskAt(Served(n), 0, "a", None);
    var t := Next(Served(n), Query("a", None));
    var none: seq<Call> := [];
    assert t.entries[0].state.Asking? && none + none == none;
    assert Receive(t, 0, Error).entries == Served(n + 1).entries;
  }

  lemma {:induction false} ServeMany(n: nat) returns (states: seq<Table>, events: seq<Event>)
    ensures Run(states, events) && states[0] == Start(2, [true]) && states[|events|] == Served(n)
    decreases n
  {
    hide Next, Served;
    if n == 0 {
      NoneServed();
      states, events := [Served(0)], [];
    } else {
      states, events := ServeMany(n - 1);
      ServeOne(n - 1);
      RunOn(states, events, Query("a", None));
      states, events := states + [Next(states[|events|], Query("a", None))], events + [Query("a", None)];
      RunOn(states, events, Message(0, Error));
      states, events := states + [Next(states[|events|], Message(0, Error))], events + [Message(0, Error)];
    }
  }

  lemma NoneServed()
    ensures Served(0) == Start(2, [true])
  {
    assert Start(2, [true]).entries == Served(0).entries;
  }

  /** Entry 0 asks under number 254, entry 1 has been answered under number 255. */
  function Wrapped(): Table {
    var unused := Entry(Unused, 0, 0, 0, 0, 0, "", 0, None);
    Table([unused.(state := Asking, tmr := 1, seqno := 254, name := "a"),
           unused.(state := Done, tmr := 1, seqno := 255, ttl := 60, name := "b", address := 7, found := Some(1))],
          0, [true], [Call(1, Some(7))])
  }

  lemma WrapUp()
    ensures Next(Next(Next(Served(254), Query("a", None)), Query("b", Some(1))), Message(1, Answer(60, 7))) == Wrapped()
  {
    hide Enqueue;
    AskAt(Served(254), 0, "a", None);
    var t := Next(Served(254), Query("a", None));
    AskAt(t, 1, "b", Some(1));
    var u := Next(t, Query("b", Some(1)));
    var none: seq<Call> := [];
    assert u.entries[1].state.Asking? && none + [Call(1, Some(7))] == [Call(1, Some(7))];
    assert Receive(u, 1, Answer(60, 7)).entries == Wrapped().entries;
  }

  /** A run at whose end a query is refused although a completed entry could make way: the counter
      is back at 0. */
  lemma RefusedAfterWrap() returns (states: seq<Table>, events: seq<Event>)
    ensures Run(states, events) && states[0] == Start(2, [true])
    ensures var t := states[|events|]; |t.entries| == 2 && t.entries[1].state.Done? && !Enqueue(t, "c", None).1
  {
    hide Next, Served, Enqueue;
    var e1, e2, e3 := Query("a", None), Query("b", Some(1)), Message(1, Answer(60, 7));
    states, events := ServeMany(254);
    WrapUp();
    RunOn(states, events, e1);
    states, events := states + [Next(states[|events|], e1)], events + [e1];
    RunOn(states, events, e2);
    states, events := states + [Next(states[|events|], e2)], events + [e2];
    RunOn(states, events, e3);
    states, events := states + [Next(states[|events|], e3)], events + [e3];
    WrappedRefuses();
  }

  lemma WrappedRefuses()
    ensures |Wrapped().entries| == 2 && Wrapped().entries[1].state.Done? && !Enqueue(Wrapped(), "c", None).1
  {
    RefusedExact(Wrapped());
  }

  // ---- The code -------------------------------------------------------------------------

  class Dns {
    const table: array<Entry>
    var seqno: byte
    const servers: seq<bool>
    var calls: seq<Call>   // the callbacks made so far

    ghost function Model(): Table
      reads this, table
    {
      Table(table[..], seqno, servers, calls)
    }

    constructor (size: nat, available: seq<bool>)
      ensures fresh(table) && table.Length == size && Model() == Start(size, available)
    {
      table := new Entry[size](_ => Entry(Unused, 0, 0, 0, 0, 0, "", 0, None));
      seqno, servers, calls := 0, available, [];
    }

    /** The callback of entry i, if it has one. */
    method CallBack(i: nat, address: Option<uint32>)
      requires i < table.Length
      modifies this`calls
      ensures calls == old(calls) + Callback(table[i], address)
    {
      if table[i].found.Some? {
        calls := calls + [Call(table[i].found.value, address)];
      } else {
        assert calls == calls + [];
      }
    }

    method Flush(i: nat)
      requires i < table.Length
      modifies table
      ensures table[..] == old(table[..])[i := Flushed(old(table[i]))]
    {
      table[i] := table[i].(state := Unused, found := None);
    }

    /** dns_check_entry. */
    method CheckEntry(i: nat)
      requires i < table.Length
      modifies table, this`calls
      ensures Model() == Check(old(Model()), i)
    {
      assert calls + [] == calls && table[..][i := table[i]] == table[..];
      match table[i].state {
        case New => table[i] := table[i].(state := Asking, numdns := 0, tmr := 1, retries := 0);
        case Asking =>
          table[i] := table[i].(tmr := Minus(table[i].tmr, 256));
          if table[i].tmr == 0 {
            table[i] := table[i].(retries := (table[i].retries + 1) % 256);
            if table[i].retries == MAX_RETRIES {
              if HasServer(servers, table[i].numdns + 1) {
                table[i] := table[i].(numdns := table[i].numdns + 1, tmr := 1, retries := 0);
              } else {
                CallBack(i, None);
                Flush(i);
              }
            } else {
              table[i] := table[i].(tmr := table[i].retries);
            }
          }
        case Done =>
          table[i] := table[i].(ttl := Minus(table[i].ttl, 0x1_0000_0000));
          if table[i].ttl == 0 {
            Flush(i);
          }
        case Unused =>
      }
    }

    /** dns_check_entries, on each tick of the timer. */
    method CheckEntries()
      modifies table, this`calls
      ensures Model() == Tick(old(Model()))
    {
      var i := 0;
      while i < table.Length
        invariant i <= table.Length && seqno == old(seqno)
        invariant TickFrom(Model(), i) == Tick(old(Model()))
      {
        CheckEntry(i);
        i := i + 1;
      }
    }

    /** dns_recv, once the message has been taken apart. */
    method Recv(id: nat, reply: Reply)
      modifies table, this`calls
      ensures Model() == Receive(old(Model()), id, reply)
    {
      if id < table.Length && table[id].state.Asking? {
        match reply {
          case Answer(ttl, address) =>
            table[id] := table[id].(state := Done, ttl := ttl, address := address);
            if table[id].ttl > MAX_TTL {
              table[id] := table[id].(ttl := MAX_TTL);
            }
            CallBack(id, Some(address));
          case Error =>
            CallBack(id, None);
            Flush(id);
        }
      }
    }

    /** dns_enqueue: the search for an entry. */
    method FindSlot() returns (i: nat)
      ensures i == SlotFrom(Model(), 0, 0, 0)
    {
      var age, oldest := 0, 0;
      i := 0;
      while i < table.Length
        invariant i <= table.Length
        invariant SlotFrom(Model(), 0, 0, 0) == SlotFrom(Model(), i, age, oldest)
      {
        if table[i].state.Unused? {
          return i;
        }
        if table[i].state.Done? && seqno - table[i].seqno > age {
          age, oldest := seqno - table[i].seqno, i;
        }
        i := i + 1;
      }
      i := oldest;
    }

    method Ask(name: string, found: Option<nat>) returns (ok: bool)
      modifies table, this`seqno, this`calls
      ensures (Model(), ok) == Enqueue(old(Model()), name, found)
    {
      var i := FindSlot();
      if i >= table.Length || (!table[i].state.Unused? && !table[i].state.Done?) {
        return false;
      }
      table[i] := table[i].(state := New, seqno := seqno, found := found,
        name := name[..Min(|name|, MAX_NAME_LENGTH - 1)]);
      seqno := (seqno + 1) % 256;
      CheckEntry(i);
      ok := true;
    }
  }
}
