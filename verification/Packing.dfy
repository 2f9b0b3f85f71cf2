/** Small writes share segments (lTCPWindowTxAdd in FreeRTOS_TCP_WIN.c): what has not been sent is packed
    into as few segments as possible, so that it makes no difference whether bytes are handed to the
    window in one piece or in several. */
module Packing {
  import opened Common
  import opened Seq32
  import opened StreamBuffers
  import opened TxWindow
  import opened Transmission

  /** Of the segments that have not been sent only the last may be less than full, and that one is the
      one that grows. */
  ghost predicate Packed(tx: Tx) {
    && |tx.queue| <= |tx.tiles|
    && (forall i :: tx.Sent() <= i < |tx.tiles| ==> tx.tiles[i].maxLength == tx.mss)
    && (forall i :: tx.Sent() <= i < |tx.tiles| - 1 ==> tx.tiles[i].length == tx.mss)
    && (tx.queue != [] && tx.tiles[|tx.tiles| - 1].length < tx.mss ==> tx.head == Some(tx.tiles[|tx.tiles| - 1].id))
  }

  /** Every segment that has not been sent is full. */
  ghost predicate AllFull(tx: Tx) {
    |tx.queue| <= |tx.tiles| && forall i :: tx.Sent() <= i < |tx.tiles| ==> tx.tiles[i].length == tx.mss
  }

  // ---- Adding ---------------------------------------------------------------------------

  /** Filling up leaves the window packed, and full if anything is left over. */
  lemma FillPacks(tx: Tx, r: Ring, n: uint32)
    requires TxOk(tx, r) && Packed(tx)
    ensures var (u, k) := Fill(tx, n);
      && Packed(u) && (k < n ==> AllFull(u)) && |u.tiles| == |tx.tiles| && |u.queue| == |tx.queue| <= |tx.tiles|
      && (k < n ==> u.head == None)
  {
    hide InPlace, Ordered, Queued, Highest, Fill;
    if tx.head.Some? {
      FillGrows(tx, r, n);
    } else {
      FillIdle(tx, n);
      if tx.queue != [] {
        LastFits(tx, r);
      }
    }
  }

  lemma LastFits(tx: Tx, r: Ring)
    requires TxOk(tx, r) && tx.tiles != []
    ensures tx.tiles[|tx.tiles| - 1].length <= tx.tiles[|tx.tiles| - 1].maxLength
  {}

  lemma FillIdle(tx: Tx, n: uint32)
    requires tx.head.None?
    ensures Fill(tx, n) == (tx, 0)
  {}

  /** New segments are full, except that the last one may be shorter. */
  lemma {:induction false} GrowPacks(tx: Tx, left: uint32, position: nat, length: nat, free: seq<nat>)
    requires 0 < tx.mss && position < length && left <= length
    requires Packed(tx) && (left > 0 ==> AllFull(tx))
    ensures var u := Grow(tx, left, position, length, free).0;
      && Packed(u) && u.mss == tx.mss && |u.tiles| >= |tx.tiles|
      && (forall i :: 0 <= i < |tx.tiles| ==> u.tiles[i] == tx.tiles[i])
      && (forall i :: |tx.tiles| <= i < |u.tiles| - 1 ==> u.tiles[i].length == tx.mss)
    decreases left
  {
    if left != 0 && free != [] {
      var k := Min(left, tx.mss);
      AppendPacks(tx, free[0], k, position, left);
      GrowPacks(Append(tx, free[0], k, position), left - k, Advance(position, k, length), length, free[1..]);
    }
  }

  lemma AppendPacks(tx: Tx, id: nat, k: uint32, position: nat, left: uint32)
    requires 0 < tx.mss && k == Min(left, tx.mss) && 0 < left && Packed(tx) && AllFull(tx)
    ensures var u := Append(tx, id, k, position);
      Packed(u) && u.mss == tx.mss && (left > k ==> AllFull(u)) && u.tiles[|tx.tiles|].length == k
  {}

  /** Handing n bytes to a packed window leaves it packed. If segments are added, those that were waiting
      to be sent before are full, and so are the new ones, except that the last may be shorter. */
  lemma AddPacks(tx: Tx, r: Ring, n: uint32, free: seq<nat>)
    requires TxOk(tx, r) && Packed(tx) && n <= r.size - r.mid
    ensures var u := TxAdd(tx, n, Advance(r.tail, r.mid, |r.view|), |r.view|, free).0;
      && Packed(u) && |u.tiles| >= |tx.tiles|
      && (|u.tiles| > |tx.tiles| ==> forall i :: tx.Sent() <= i < |u.tiles| - 1 ==> u.tiles[i].length == u.mss)
  {
    hide TxOk, Packed, Fill, Grow, TxAdd, AllFull;
    RingFits(tx, r);
    var position, length := Advance(r.tail, r.mid, |r.view|), |r.view|;
    AddIs(tx, n, position, length, free);
    FillPacks(tx, r, n);
    var (u, k) := Fill(tx, n);
    GrowPacks(u, n - k, Advance(position, k, length), length, free);
    NoneGrown(u, n - k, Advance(position, k, length), length, free);
    PackedFull(tx, u, Grow(u, n - k, Advance(position, k, length), length, free).0, n - k);
  }

  lemma NoneGrown(tx: Tx, left: uint32, position: nat, length: nat, free: seq<nat>)
    requires 0 < tx.mss && position < length && left <= length
    ensures left == 0 ==> Grow(tx, left, position, length, free).0 == tx
  {}

  lemma PackedFull(tx: Tx, u: Tx, v: Tx, left: nat)
    requires |u.tiles| == |tx.tiles| && |u.queue| == |tx.queue| <= |tx.tiles| && v.mss == u.mss
    requires |v.tiles| >= |u.tiles|
    requires left > 0 ==> AllFull(u)
    requires forall i :: 0 <= i < |u.tiles| ==> v.tiles[i] == u.tiles[i]
    requires forall i :: |u.tiles| <= i < |v.tiles| - 1 ==> v.tiles[i].length == u.mss
    requires left == 0 ==> v == u
    ensures |v.tiles| > |tx.tiles| ==> forall i :: tx.Sent() <= i < |v.tiles| - 1 ==> v.tiles[i].length == v.mss
  {}

  // ---- The other steps ------------------------------------------------------------------

  lemma GetPacks(tx: Tx, r: Ring, window: uint32, expired: bool)
    requires TxOk(tx, r) && Packed(tx)
    ensures Packed(TxGet(tx, window, expired).0)
  {
    hide InPlace, Queued, Highest, HasSpace;
    var u := TxGet(tx, window, expired).0;
    GetShape(tx, window, expired);
    if u.queue != tx.queue {
      assert tx.queue != [];
    }
  }

  lemma GetShape(tx: Tx, window: uint32, expired: bool)
    requires QueuesOk(tx.tiles, tx.queue, tx.priority, tx.waiting, tx.head)
    ensures var u := TxGet(tx, window, expired).0;
      && u.mss == tx.mss && SameShape(tx.tiles, u.tiles)
      && ((u.queue == tx.queue && u.head == tx.head)
          || (tx.queue != [] && u.queue == tx.queue[1..]
              && u.head == if tx.head == Some(tx.tiles[tx.Sent()].id) then None else tx.head))
  {
    hide HasSpace;
  }

  lemma CheckPacks(tx: Tx, r: Ring, first: uint32, last: uint32)
    requires TxOk(tx, r) && BlockWithin(tx, first, last) && Packed(tx)
    ensures Packed(CheckAck(tx, first, last).0)
  {
    hide QueuesOk, EdgesOk, Packed, Acknowledged, Acknowledge, BlockWithin;
    var b := Acknowledged(tx, first, last);
    BlockTakesSent(tx, r, first, last);
    if b.0 < b.1 {
      QueueAfter(tx, r, b.0, b.1);
      AcknowledgePacks(tx, b.0, b.1);
    } else {
      NothingPacks(tx, b.0);
    }
  }

  lemma QueueAfter(tx: Tx, r: Ring, from: nat, end: nat)
    requires TxOk(tx, r) && from <= end <= tx.Sent()
    ensures Unlinked(tx.queue, tx.tiles, from, end) == tx.queue && |tx.queue| <= |tx.tiles|
  {
    hide InPlace, Ordered, Queued, Highest, SentFirst;
    QueueKept(tx.tiles, tx.current, tx.queue, from, end);
  }

  lemma AcknowledgePacks(tx: Tx, from: nat, end: nat)
    requires |tx.queue| <= |tx.tiles| && from <= end <= tx.Sent() && Packed(tx)
    requires Unlinked(tx.queue, tx.tiles, from, end) == tx.queue
    ensures Packed(Acknowledge(tx, from, end))
  {
    hide Unlinked, Boundary;
  }

  lemma NothingPacks(tx: Tx, i: nat)
    requires i <= |tx.tiles| && Packed(tx)
    ensures Packed(Acknowledge(tx, i, i))
  {
    hide Boundary;
    NothingUnlinked(tx, i);
  }

  lemma FastPacks(tx: Tx, first: uint32)
    requires Packed(tx)
    ensures Packed(FastRetransmit(tx, first))
  {}

  // ---- Every run ------------------------------------------------------------------------

  lemma StepPacks(s: Sender, first: int, e: Event)
    requires InStep(s, first) && TxOk(s.tx, s.stream) && Allowed(s, e) && Packed(s.tx)
    ensures Packed(Next(s, e).tx)
  {
    hide InStep, TxOk, Packed, TxGet, TxAdd, CheckAck, FastRetransmit, BlockWithin, LessOrEqual, InFlight;
    match e
    case Written(data) =>
    case Handed(free) => HandPacks(s, free);
    case Sent(window, expired) => GetPacks(s.tx, s.stream, window, expired);
    case Acked(number) =>
      if !LessOrEqual(number, s.tx.current) {
        FlightCounts(s.tx, s.stream);
        AckWithin(s.tx, number);
        CheckPacks(s.tx, s.stream, s.tx.current, number);
      }
    case Sacked(from, last) =>
      CheckPacks(s.tx, s.stream, from, last);
      FastPacks(CheckAck(s.tx, from, last).0, from);
  }

  lemma FlightCounts(tx: Tx, r: Ring)
    requires TxOk(tx, r)
    ensures |tx.queue| <= |tx.tiles|
  {
    hide Queued, EdgesOk;
  }

  lemma HandPacks(s: Sender, free: seq<nat>)
    requires TxOk(s.tx, s.stream) && Packed(s.tx)
    ensures Packed(Hand(s, free).tx)
  {
    hide TxOk, Packed, TxAdd;
    RingFits(s.tx, s.stream);
    if s.stream.size > s.stream.mid {
      AddPacks(s.tx, s.stream, s.stream.size - s.stream.mid, free);
    }
  }

  /** Over every run, of the segments that have not been sent only the last may be less than full, and
      that one is the one that grows. */
  lemma {:induction false} RunPacked(states: seq<Sender>, events: seq<Event>, first: int, length: nat,
                                     windowLength: uint32, mss: uint16, sendFullSize: bool, j: nat)
    requires Run(states, events, first) && j < |states| && 0 < mss && 0 < length <= TWO31
    requires states[0] == Start(first, length, windowLength, mss, sendFullSize)
    ensures Packed(states[j].tx) && InStep(states[j], first)
    decreases j
  {
    hide InStep, Packed, Next, Allowed;
    StartInStep(first, length, windowLength, mss, sendFullSize);
    if j == 0 {
      StartPacked(first, length, windowLength, mss, sendFullSize);
    } else {
      RunPacked(states, events, first, length, windowLength, mss, sendFullSize, j - 1);
      var s, e := states[j - 1], events[j - 1];
      assert StepOf(s, e, states[j], first);
      InStepParts(s, first);
      StepPacks(s, first, e);
      StepKeeps(s, first, e);
    }
  }

  lemma StartPacked(first: int, length: nat, windowLength: uint32, mss: uint16, sendFullSize: bool)
    requires 0 < mss && 0 < length <= TWO31
    ensures Packed(Start(first, length, windowLength, mss, sendFullSize).tx)
  {}

  // ---- In two pieces --------------------------------------------------------------------

  /** The growing segment takes two pieces like one. */
  lemma FillTwice(tx: Tx, r: Ring, m: uint32, n: uint32)
    requires TxOk(tx, r) && m + n < TWO31
    ensures var (u, k) := Fill(tx, m);
      if k < m then Fill(tx, m + n) == (u, k) && u.head == None
      else var (v, l) := Fill(u, n); Fill(tx, m + n) == (v, m + l)
  {
    hide QueuesOk, EdgesOk, Fill;
    if tx.head.Some? {
      FillGrows(tx, r, m);
      FillGrows(tx, r, m + n);
      LastGrows(tx, r);
      FillsOn(tx, m, n);
    } else {
      FillIdle(tx, m);
      FillIdle(tx, n);
      FillIdle(tx, m + n);
    }
  }

  lemma LastGrows(tx: Tx, r: Ring)
    requires TxOk(tx, r) && tx.head.Some?
    ensures tx.tiles != []
    ensures var t := tx.tiles[|tx.tiles| - 1];
      tx.head.value == t.id && 0 < t.length < t.maxLength && !t.outstanding
  {
    hide Ordered, Queued, Highest;
    LastFits(tx, r);
  }

  lemma FillsOn(tx: Tx, m: uint32, n: uint32)
    requires tx.tiles != [] && tx.head == Some(tx.tiles[|tx.tiles| - 1].id) && m + n < TWO31
    requires var t := tx.tiles[|tx.tiles| - 1]; 0 < t.length < t.maxLength && !t.outstanding
    ensures var (u, k) := Fill(tx, m);
      if k < m then Fill(tx, m + n) == (u, k) && u.head == None
      else var (v, l) := Fill(u, n); Fill(tx, m + n) == (v, m + l)
  {
    var t := tx.tiles[|tx.tiles| - 1];
    var k := Min(m, t.maxLength - t.length);
    var l := Min(n, t.maxLength - t.length - k);
    LongerTwice(tx.tiles, k, l);
    AddAdd(tx.next, k, l);
  }

  lemma LongerTwice(tiles: seq<Tile>, k: nat, l: nat)
    requires tiles != [] && tiles[|tiles| - 1].length + k + l < TWO32
    ensures LongerLast(LongerLast(tiles, k), l) == LongerLast(tiles, k + l)
  {}

  lemma AddAdd(a: uint32, k: nat, l: nat)
    requires k + l < TWO32
    ensures Add(Add(a, k), l) == Add(a, k + l)
  {}

  /** A new segment that is not full takes more bytes as if it had got them at once. */
  lemma AppendFill(tx: Tx, id: nat, m: uint32, position: nat, n: uint32)
    requires 0 < m <= tx.mss && m + n < TWO31
    ensures var l := Min(n, tx.mss - m);
      Fill(Append(tx, id, m, position), n) == (Append(tx, id, m + l, position), l)
  {
    var l := Min(n, tx.mss - m);
    AddAdd(tx.next, m, l);
    var u := Append(tx, id, m, position);
    assert u.tiles[|tx.tiles|].length == m;
    assert m < tx.mss ==> LongerLast(u.tiles, l) == Append(tx, id, m + l, position).tiles;
  }

  lemma AdvanceTwice(position: nat, k: nat, l: nat, length: nat)
    requires position < length && k + l < length
    ensures Advance(position, k, length) < length
    ensures Advance(Advance(position, k, length), l, length) == Advance(position, k + l, length)
    ensures Advance(position, 0, length) == position
  {}

  /** The second piece, after the first has been handed over as far as there were descriptors. */
  ghost predicate SameInTwo(tx: Tx, m: nat, n: nat, position: nat, length: nat, once: (Tx, seq<nat>, uint32),
                            first: (Tx, seq<nat>, uint32))
    requires position < length && m + n < length <= TWO31
  {
    && first.2 <= m && first.0.mss == tx.mss && 0 < tx.mss
    && TxAdd(first.0, m - first.2 + n, Advance(position, first.2, length), length, first.1)
       == (once.0, once.1, once.2 - first.2)
  }

  lemma {:induction false} GrowTwice(tx: Tx, m: nat, n: nat, position: nat, length: nat, free: seq<nat>)
    requires tx.head.None? && 0 < tx.mss && position < length && m + n < length <= TWO31
    ensures Grow(tx, m, position, length, free).2 <= Grow(tx, m + n, position, length, free).2
    ensures SameInTwo(tx, m, n, position, length, Grow(tx, m + n, position, length, free),
                      Grow(tx, m, position, length, free))
    decreases m
  {
    hide Grow, TxAdd, Append, Fill;
    AdvanceTwice(position, 0, 0, length);
    if m == 0 || free == [] {
      GrowNone(tx, m, position, length, free);
      if free == [] {
        GrowNone(tx, m + n, position, length, free);
      }
      FillIdle(tx, m + n);
      AddIs(tx, m + n, position, length, free);
    } else if m <= tx.mss {
      GrowShort(tx, m, n, position, length, free);
    } else {
      GrowLong(tx, m, n, position, length, free);
      var u, p := Append(tx, free[0], tx.mss, position), Advance(position, tx.mss, length);
      AdvanceTwice(position, tx.mss, 0, length);
      FullIdle(tx, free[0], position);
      GrowTwice(u, m - tx.mss, n, p, length, free[1..]);
      var k := Grow(u, m - tx.mss, p, length, free[1..]).2;
      AdvanceTwice(position, tx.mss, k, length);
    }
  }

  lemma FullIdle(tx: Tx, id: nat, position: nat)
    ensures Append(tx, id, tx.mss, position).head == None && Append(tx, id, tx.mss, position).mss == tx.mss
  {}

  lemma GrowLong(tx: Tx, m: nat, n: nat, position: nat, length: nat, free: seq<nat>)
    requires 0 < tx.mss < m && position < length && m + n < length <= TWO31 && free != []
    ensures var u, p := Append(tx, free[0], tx.mss, position), Advance(position, tx.mss, length);
      var g, h := Grow(u, m - tx.mss, p, length, free[1..]), Grow(u, m + n - tx.mss, p, length, free[1..]);
      && Grow(tx, m, position, length, free) == (g.0, g.1, tx.mss + g.2)
      && Grow(tx, m + n, position, length, free) == (h.0, h.1, tx.mss + h.2)
  {
    hide Grow, Append;
    GrowOnce(tx, m, position, length, free);
    GrowOnce(tx, m + n, position, length, free);
  }

  /** The first piece fits one new segment. */
  lemma GrowShort(tx: Tx, m: nat, n: nat, position: nat, length: nat, free: seq<nat>)
    requires 0 < m <= tx.mss && position < length && m + n < length <= TWO31 && free != []
    ensures Grow(tx, m, position, length, free).2 <= Grow(tx, m + n, position, length, free).2
    ensures SameInTwo(tx, m, n, position, length, Grow(tx, m + n, position, length, free),
                      Grow(tx, m, position, length, free))
  {
    hide Grow, TxAdd, Append, Fill;
    var u, p := Append(tx, free[0], m, position), Advance(position, m, length);
    var l := Min(n, tx.mss - m);
    GrowOnce(tx, m, position, length, free);
    AppendMoves(tx, free[0], m, position);
    AdvanceTwice(position, m, l, length);
    GrowNone(u, 0, p, length, free[1..]);
    GrowOnce(tx, m + n, position, length, free);
    AppendFill(tx, free[0], m, position, n);
    AddIs(u, n, p, length, free[1..]);
  }

  /** Handing over m bytes and then n more, with whatever descriptors there are, gives the same segments
      as handing over m + n bytes at once. */
  lemma AddTwice(tx: Tx, r: Ring, m: nat, n: nat, position: nat, length: nat, free: seq<nat>)
    requires TxOk(tx, r) && position < length && m + n < length <= TWO31
    ensures SameInTwo(tx, m, n, position, length, TxAdd(tx, m + n, position, length, free),
                      TxAdd(tx, m, position, length, free))
  {
    hide TxOk, Grow, TxAdd, Fill;
    RingFits(tx, r);
    AdvanceTwice(position, 0, 0, length);
    FillTwice(tx, r, m, n);
    AddIs(tx, m, position, length, free);
    AddIs(tx, m + n, position, length, free);
    var (u, k) := Fill(tx, m);
    if k < m {
      var p := Advance(position, k, length);
      AdvanceTwice(position, k, 0, length);
      GrowTwice(u, m - k, n, p, length, free);
      AdvanceTwice(position, k, Grow(u, m - k, p, length, free).2, length);
    } else {
      var p := Advance(position, m, length);
      AdvanceTwice(position, m, Fill(u, n).1, length);
      GrowNone(u, 0, p, length, free);
      AddIs(u, n, p, length, free);
    }
  }

  /** The free descriptors that are left after bytes have been handed to the window. */
  function Spare(s: Sender, free: seq<nat>): seq<nat>
    requires TxOk(s.tx, s.stream)
  {
    var r := s.stream;
    if r.size == r.mid then free
    else TxAdd(s.tx, r.size - r.mid, Advance(r.tail, r.mid, |r.view|), |r.view|, free).1
  }

  /** Moving the mid marker before bytes are appended, and then on, or only afterwards. */
  lemma MidLater(r: Ring, data: seq<byte>, k: nat, l: nat)
    requires r.Ok() && r.mid <= r.size && k <= r.size - r.mid && k + l <= r.size + r.Fits(0, |data|) - r.mid
    ensures var q := r.Add(0, Some(data), |data|); var p := r.MoveMid(k).Add(0, Some(data), |data|);
      && p.size == q.size == r.size + r.Fits(0, |data|) < |r.view| && q.mid == r.mid && p.mid == r.mid + k
      && |p.view| == |q.view| == |r.view| && p.tail == q.tail == r.tail
      && r.MoveMid(k).Fits(0, |data|) == r.Fits(0, |data|)
      && p.MoveMid(l) == q.MoveMid(k + l)
  {}

  lemma NotMoved(r: Ring)
    requires r.mid <= r.size < |r.view| && r.mid < |r.view|
    ensures r.MoveMid(0) == r
  {}

  /** It makes no difference whether bytes are handed to the window between two writes or only after the
      second: the same segments, at the same places, with the same descriptors. */
  lemma HandTwice(s: Sender, first: int, data: seq<byte>, free: seq<nat>)
    requires InStep(s, first) && TxOk(s.tx, s.stream) && Offered(s.tx.tiles, free)
    ensures var a := Hand(s, free);
      && TxOk(a.tx, a.stream) && a.stream.size < |a.stream.view| && s.stream.size < |s.stream.view|
      && TxOk(Write(a, data).tx, Write(a, data).stream) && TxOk(Write(s, data).tx, Write(s, data).stream)
      && Hand(Write(a, data), Spare(s, free)) == Hand(Write(s, data), free)
  {
    hide TxOk, InStep, TxAdd;
    HandStep(s, first, free);
    InStepParts(s, first);
    var a := Hand(s, free);
    InStepParts(a, first);
    WriteStep(a, first, data);
    WriteStep(s, first, data);
    InStepParts(Write(a, data), first);
    InStepParts(Write(s, data), first);
    RingFits(s.tx, s.stream);
    if s.stream.size > s.stream.mid {
      HandSplit(s, data, free);
    }
  }

  lemma HandSplit(s: Sender, data: seq<byte>, free: seq<nat>)
    requires TxOk(s.tx, s.stream) && s.stream.Ok() && s.stream.mid < s.stream.size && |s.stream.view| <= TWO31
    requires var a := Hand(s, free);
      && a.stream.size < |a.stream.view|
      && TxOk(Write(a, data).tx, Write(a, data).stream) && TxOk(Write(s, data).tx, Write(s, data).stream)
    requires 0 < s.tx.mss
    ensures Hand(Write(Hand(s, free), data), Spare(s, free)) == Hand(Write(s, data), free)
  {
    hide TxOk, TxAdd, Ring.Add, Ring.MoveMid;
    var r := s.stream;
    var m, w, length := r.size - r.mid, r.Fits(0, |data|), |r.view|;
    var position := Advance(r.tail, r.mid, length);
    AdvanceTwice(r.tail, r.mid, 0, length);
    AddTwice(s.tx, r, m, w, position, length, free);
    var one, all := TxAdd(s.tx, m, position, length, free), TxAdd(s.tx, m + w, position, length, free);
    var k := one.2;
    AdvanceTwice(r.tail, r.mid, k, length);
    MidLater(r, data, k, 0);
    MidLater(r, data, k, if all.2 >= k then all.2 - k else 0);
    NotMoved(r.MoveMid(k).Add(0, Some(data), |data|));
  }
}
