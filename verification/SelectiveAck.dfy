/** What a selective acknowledgement does to every segment of the transmit window: those inside the
    block are settled, those below it come nearer to a fast retransmission, and all others stay as they
    are (ulTCPWindowTxSack in FreeRTOS_TCP_WIN.c). */
module SelectiveAck {
  import opened Common
  import opened Seq32
  import opened StreamBuffers
  import opened TxWindow

  /** The segment lies wholly between two offsets. */
  predicate Inside(t: Tile, base: uint32, from: nat, to: nat) {
    from <= Rel(t, base) && RelEnd(t, base) <= to
  }

  ghost predicate StartsSegment(tiles: seq<Tile>, first: uint32) {
    exists i :: 0 <= i < |tiles| && tiles[i].seqNo == first
  }

  /** The segment is still in the window, with the given mark. */
  ghost predicate StaysWith(tiles: seq<Tile>, t: Tile, acked: bool) {
    exists j :: 0 <= j < |tiles| && tiles[j].id == t.id && tiles[j].seqNo == t.seqNo && tiles[j].length == t.length
                && tiles[j].acked == acked
  }

  predicate Unqueued(tx: Tx, id: nat) {
    id !in tx.priority && id !in tx.queue && id !in tx.waiting
  }

  // ---- What a block takes in ------------------------------------------------------------

  lemma {:induction false} SkipsTo(tiles: seq<Tile>, base: uint32, r: Ring, j: nat, i: nat)
    requires Tiling(tiles, base, r) && j <= i < |tiles|
    ensures SkipTo(tiles, j, tiles[i].seqNo) == i
    decreases i - j
  {
    hide InPlace;
    if j < i {
      Below(tiles, base, r, j, i);
      SkipsTo(tiles, base, r, j + 1, i);
    }
  }

  lemma Below(tiles: seq<Tile>, base: uint32, r: Ring, j: nat, i: nat)
    requires Tiling(tiles, base, r) && j < i < |tiles|
    ensures Greater(tiles[i].seqNo, tiles[j].seqNo)
  {
    RelBound(tiles, base, r, i);
    RelBound(tiles, base, r, j);
    assert RelEnd(tiles[j], base) <= Rel(tiles[i], base);
  }

  lemma {:induction false} TakesUpTo(tiles: seq<Tile>, i: nat, n: nat, last: uint32)
    requires i <= n <= |tiles| && forall k :: i <= k < n ==> Takes(tiles[k], last)
    ensures TakeTo(tiles, i, last) >= n
    decreases n - i
  {
    if i < n {
      TakesUpTo(tiles, i + 1, n, last);
    }
  }

  /** A block that starts where segment i starts takes in every segment that lies inside it. */
  lemma InsideTaken(tx: Tx, r: Ring, first: uint32, last: uint32, i: nat, k: nat)
    requires TxOk(tx, r) && BlockWithin(tx, first, last) && Sub(first, tx.current) < TWO31
    requires i < |tx.tiles| && tx.tiles[i].seqNo == first && k < |tx.tiles|
    requires Inside(tx.tiles[k], tx.current, Sub(first, tx.current), Sub(first, tx.current) + Sub(last, first))
    ensures var b := Acknowledged(tx, first, last); b.0 == i <= k < b.1
  {
    hide QueuesOk, Highest, InPlace, Sub;
    var base, from := tx.current, Sub(first, tx.current);
    SkipsTo(tx.tiles, base, r, 0, i);
    RelBound(tx.tiles, base, r, k);
    EdgeAt(tx.tiles, base, r, tx.Sent());
    EdgeAt(tx.tiles, base, r, i);
    EdgeSplits(tx.tiles, base, r, i, k);
    forall m | i <= m < k + 1 ensures Takes(tx.tiles[m], last) {
      RelBound(tx.tiles, base, r, m);
      TakesMeans(tx.tiles[m], base, first, last);
      if m < k {
        assert RelEnd(tx.tiles[m], base) <= Rel(tx.tiles[k], base);
      }
    }
    TakesUpTo(tx.tiles, i, k + 1, last);
    NotEmpty(first, last);
  }

  lemma NotEmpty(first: uint32, last: uint32)
    requires 0 < Sub(last, first) <= TWO31
    ensures Less(first, last)
  {}

  // ---- What becomes of each segment -----------------------------------------------------

  /** What a block from offset from to offset to makes of a segment, if it moves the left edge by count:
      inside the block the segment is passed by the edge, or marked and in no queue; outside it keeps
      its mark, passed by the edge only if it was marked before. */
  ghost predicate Settled(t: Tile, base: uint32, from: nat, to: nat, hit: bool, u: Tx, count: nat) {
    if hit && Inside(t, base, from, to) then
      if from == 0 then RelEnd(t, base) <= count
      else StaysWith(u.tiles, t, true) && Unqueued(u, t.id)
    else (t.acked && RelEnd(t, base) <= count) || StaysWith(u.tiles, t, t.acked)
  }

  lemma StaysAt(tiles: seq<Tile>, j: nat, t: Tile)
    requires j < |tiles| && tiles[j].id == t.id && tiles[j].seqNo == t.seqNo && tiles[j].length == t.length
    ensures StaysWith(tiles, t, tiles[j].acked)
  {}

  /** The segment after the block has been taken in, before the others are looked at. */
  lemma BlockSettles(tx: Tx, r: Ring, first: uint32, last: uint32, k: nat)
    requires TxOk(tx, r) && BlockWithin(tx, first, last) && k < |tx.tiles|
    ensures var (u, count) := CheckAck(tx, first, last); var t := tx.tiles[k];
      var from := Sub(first, tx.current); var to := from + Sub(last, first);
      if StartsSegment(tx.tiles, first) && Inside(t, tx.current, from, to)
      then if from == 0 then RelEnd(t, tx.current) <= count else StaysWith(u.tiles, t, true)
      else (t.acked && RelEnd(t, tx.current) <= count) || StaysWith(u.tiles, t, t.acked)
  {
    hide QueuesOk, Highest, InPlace, Ordered, Acknowledged, Boundary, StartsSegment;
    var b := Acknowledged(tx, first, last);
    var u := CheckAck(tx, first, last).0;
    BlockTakesSent(tx, r, first, last);
    EdgeAt(tx.tiles, tx.current, r, 0);
    if b.0 < b.1 {
      StartsHere(tx.tiles, b.0);
      FirstAtEdge(tx, r, b.0);
    }
    var from := Sub(first, tx.current);
    if StartsSegment(tx.tiles, first) && Inside(tx.tiles[k], tx.current, from, from + Sub(last, first)) {
      var i := SegmentAt(tx.tiles, first);
      RelBound(tx.tiles, tx.current, r, i);
      InsideTaken(tx, r, first, last, i, k);
      FirstAtEdge(tx, r, i);
    }
    if b.0 == 0 && k < b.1 {
      EdgeSplits(tx.tiles, tx.current, r, b.1, k);
    } else if b.0 == 0 {
      StaysAt(u.tiles, k - b.1, tx.tiles[k]);
    } else {
      StaysAt(u.tiles, k, tx.tiles[k]);
    }
  }

  lemma StartsHere(tiles: seq<Tile>, i: nat)
    requires i < |tiles|
    ensures StartsSegment(tiles, tiles[i].seqNo)
  {}

  lemma SegmentAt(tiles: seq<Tile>, first: uint32) returns (i: nat)
    requires StartsSegment(tiles, first)
    ensures i < |tiles| && tiles[i].seqNo == first
  {
    i :| 0 <= i < |tiles| && tiles[i].seqNo == first;
  }

  lemma FirstAtEdge(tx: Tx, r: Ring, i: nat)
    requires TxOk(tx, r) && i < |tx.tiles|
    ensures Sub(tx.tiles[i].seqNo, tx.current) == 0 <==> i == 0
  {
    hide QueuesOk, Highest, InPlace;
    EdgeAt(tx.tiles, tx.current, r, 0);
    EdgeSplits(tx.tiles, tx.current, r, i, 0);
    EdgeAt(tx.tiles, tx.current, r, i);
  }

  /** The walk over the waiting queue changes counters only. */
  lemma FastStays(tx: Tx, first: uint32, t: Tile, acked: bool)
    requires StaysWith(tx.tiles, t, acked)
    ensures StaysWith(FastRetransmit(tx, first).tiles, t, acked)
  {
    var j :| 0 <= j < |tx.tiles| && tx.tiles[j].id == t.id && tx.tiles[j].seqNo == t.seqNo
      && tx.tiles[j].length == t.length && tx.tiles[j].acked == acked;
    StaysAt(FastRetransmit(tx, first).tiles, j, t);
  }

  /** A marked segment is in no queue. */
  lemma MarkedUnqueued(tx: Tx, r: Ring, t: Tile)
    requires TxOk(tx, r) && StaysWith(tx.tiles, t, true)
    ensures Unqueued(tx, t.id)
  {
    hide InPlace, Ordered, Highest;
    var j :| 0 <= j < |tx.tiles| && tx.tiles[j].id == t.id && tx.tiles[j].acked;
    if t.id in tx.queue {
      var m :| 0 <= m < |tx.queue| && tx.queue[m] == t.id;
      SameName(tx.tiles, tx.current, j, tx.Sent() + m);
    }
    if Pending(tx.tiles, tx.Sent(), t.id) {
      var i :| 0 <= i < tx.Sent() && tx.tiles[i].id == t.id && !tx.tiles[i].acked;
      SameName(tx.tiles, tx.current, i, j);
    }
  }

  lemma SameName(tiles: seq<Tile>, base: uint32, i: nat, j: nat)
    requires Ordered(tiles, base) && i < |tiles| && j < |tiles| && tiles[i].id == tiles[j].id
    ensures i == j
  {}

  /** A selective acknowledgement of a block within what has been sent: if the block starts where a
      segment starts, every segment inside it is passed by the left edge, or marked and taken out of the
      queues; all others, and all if it starts elsewhere, keep their marks. The left edge moves only if
      the block starts at it. */
  lemma SackSettles(tx: Tx, r: Ring, first: uint32, last: uint32, k: nat)
    requires TxOk(tx, r) && BlockWithin(tx, first, last) && k < |tx.tiles|
    ensures var (u, count) := TxSack(tx, first, last);
      var from := Sub(first, tx.current); var to := from + Sub(last, first);
      && u.current == Add(tx.current, count) && (from > 0 ==> count == 0)
      && Settled(tx.tiles[k], tx.current, from, to, StartsSegment(tx.tiles, first), u, count)
  {
    hide TxOk, BlockWithin, CheckAck, FastRetransmit, StaysWith, StartsSegment, Inside, Sub, Add, RelEnd;
    var (v, count) := CheckAck(tx, first, last);
    RingFits(tx, r);
    CheckAckOk(tx, r, first, last);
    FastRetransmitOk(v, r.Drop(count), first);
    BlockSettles(tx, r, first, last, k);
    var u, t := FastRetransmit(v, first), tx.tiles[k];
    if StaysWith(v.tiles, t, true) {
      FastStays(v, first, t, true);
      MarkedUnqueued(u, r.Drop(count), t);
    }
    if StaysWith(v.tiles, t, t.acked) {
      FastStays(v, first, t, t.acked);
    }
    FastEdge(v, first);
    if Sub(first, tx.current) > 0 {
      EdgeStays(tx, r, first, last);
    }
  }

  lemma FastEdge(tx: Tx, first: uint32)
    ensures FastRetransmit(tx, first).current == tx.current && FastRetransmit(tx, first).queue == tx.queue
    ensures |FastRetransmit(tx, first).tiles| == |tx.tiles|
  {}

  lemma EdgeStays(tx: Tx, r: Ring, first: uint32, last: uint32)
    requires TxOk(tx, r) && Sub(first, tx.current) > 0
    ensures CheckAck(tx, first, last).1 == 0
  {
    hide QueuesOk, Highest, InPlace, Ordered, Less, Greater;
    EdgeAt(tx.tiles, tx.current, r, 0);
  }

  // ---- Fast retransmission --------------------------------------------------------------

  /** What a block that starts at offset from makes of segment k, which it does not settle. A segment
      that waits for its acknowledgement and lies below the block counts it; the third such block moves
      the segment to the priority queue. Nothing happens to any other segment. */
  ghost predicate Counted(tx: Tx, u: Tx, k: nat, from: nat)
    requires k < |tx.tiles| && |u.tiles| == |tx.tiles|
  {
    var t := tx.tiles[k];
    if t.id in tx.waiting && Rel(t, tx.current) < from then
      if t.dupAckCount == 2 then
        && u.tiles[k] == t.(dupAckCount := 3, transmitCount := 0)
        && t.id in u.priority && t.id !in u.waiting
      else
        && u.tiles[k] == t.(dupAckCount := (t.dupAckCount + 1) % 256)
        && t.id in u.waiting && t.id !in u.priority
    else
      && u.tiles[k] == t
      && (t.id in u.waiting <==> t.id in tx.waiting) && (t.id in u.priority <==> t.id in tx.priority)
  }

  lemma WaitingIs(tx: Tx, r: Ring, k: nat)
    requires TxOk(tx, r) && k < |tx.tiles| && tx.tiles[k].id in tx.waiting
    ensures !tx.tiles[k].acked && tx.tiles[k].id !in tx.priority
  {
    hide InPlace, SentFirst, Highest;
    var i :| 0 <= i < tx.Sent() && tx.tiles[i].id == tx.tiles[k].id && !tx.tiles[i].acked;
    SameName(tx.tiles, tx.current, i, k);
  }

  lemma DueNamed(tx: Tx, r: Ring, first: uint32, k: nat)
    requires TxOk(tx, r) && k < |tx.tiles|
    ensures NamesDue(tx.tiles, tx.waiting, first, tx.tiles[k].id) <==> Due(tx.tiles[k], tx.waiting, first)
  {
    hide QueuesOk, InPlace, Highest, Due;
    forall i | 0 <= i < |tx.tiles| && tx.tiles[i].id == tx.tiles[k].id ensures i == k {
      SameName(tx.tiles, tx.current, i, k);
    }
  }

  lemma FastCounts(tx: Tx, r: Ring, first: uint32, k: nat)
    requires TxOk(tx, r) && Sub(first, tx.current) < TWO31 && k < |tx.tiles|
    ensures |FastRetransmit(tx, first).tiles| == |tx.tiles|
    ensures Counted(tx, FastRetransmit(tx, first), k, Sub(first, tx.current))
  {
    hide QueuesOk, InPlace, Ordered, Highest, Sub, Less, NamesDue;
    var t := tx.tiles[k];
    RelBound(tx.tiles, tx.current, r, k);
    LessMeans(t.seqNo, first, tx.current);
    DueNamed(tx, r, first, k);
    if t.id in tx.waiting {
      WaitingIs(tx, r, k);
    }
  }

  lemma LessMeans(a: uint32, b: uint32, base: uint32)
    requires Sub(a, base) < TWO31 && Sub(b, base) < TWO31
    ensures Less(a, b) <==> Sub(a, base) < Sub(b, base)
  {}

  /** Taking in a block ahead does not touch what lies below it. */
  lemma BelowStays(tx: Tx, r: Ring, first: uint32, last: uint32, k: nat)
    requires TxOk(tx, r) && BlockWithin(tx, first, last) && Sub(first, tx.current) < TWO31
    requires k < |tx.tiles| && Rel(tx.tiles[k], tx.current) < Sub(first, tx.current)
    ensures var (u, count) := CheckAck(tx, first, last);
      && count == 0 && TxOk(u, r) && u.current == tx.current
      && |u.tiles| == |tx.tiles| && u.tiles[k] == tx.tiles[k]
      && (tx.tiles[k].id in u.waiting <==> tx.tiles[k].id in tx.waiting)
      && (tx.tiles[k].id in u.priority <==> tx.tiles[k].id in tx.priority)
  {
    hide TxOk, BlockWithin, Sub, Acknowledged, Unlinked, Boundary;
    var b := Acknowledged(tx, first, last);
    var (u, count) := CheckAck(tx, first, last);
    RingFits(tx, r);
    CheckAckOk(tx, r, first, last);
    EdgeStays(tx, r, first, last);
    DropZero(r);
    StartsAhead(tx, r, first, last, k);
    NoName(tx, r, b.0, b.1, k);
    LinkKept(tx, r, b.0, b.1, k);
    AddZero(tx.current);
  }

  lemma AddZero(a: uint32)
    ensures Add(a, 0) == a
  {}

  lemma StartsAhead(tx: Tx, r: Ring, first: uint32, last: uint32, k: nat)
    requires TxOk(tx, r) && BlockWithin(tx, first, last) && Sub(first, tx.current) < TWO31
    requires k < |tx.tiles| && Rel(tx.tiles[k], tx.current) < Sub(first, tx.current)
    ensures k < Acknowledged(tx, first, last).0
  {
    hide QueuesOk, InPlace, Highest, Sub, TakeTo;
    SkipsPast(tx.tiles, tx.current, r, 0, k, first);
  }

  lemma {:induction false} SkipsPast(tiles: seq<Tile>, base: uint32, r: Ring, j: nat, k: nat, first: uint32)
    requires Tiling(tiles, base, r) && j <= k < |tiles| && Rel(tiles[k], base) < Sub(first, base) < TWO31
    ensures SkipTo(tiles, j, first) > k
    decreases k - j
  {
    hide InPlace, Sub;
    RelBound(tiles, base, r, k);
    RelBound(tiles, base, r, j);
    assert j < k ==> RelEnd(tiles[j], base) <= Rel(tiles[k], base);
    GreaterMeans(first, tiles[j].seqNo, base);
    if j < k {
      SkipsPast(tiles, base, r, j + 1, k, first);
    }
  }

  lemma GreaterMeans(a: uint32, b: uint32, base: uint32)
    requires Sub(a, base) < TWO31 && Sub(b, base) < TWO31
    ensures Greater(a, b) <==> Sub(a, base) > Sub(b, base)
  {}

  lemma NoName(tx: Tx, r: Ring, from: nat, end: nat, k: nat)
    requires TxOk(tx, r) && k < from <= end <= |tx.tiles|
    ensures !Names(tx.tiles, from, end, tx.tiles[k].id)
  {
    hide QueuesOk, InPlace, Highest;
  }

  lemma LinkKept(tx: Tx, r: Ring, from: nat, end: nat, k: nat)
    requires TxOk(tx, r) && k < from <= end <= |tx.tiles| && !Names(tx.tiles, from, end, tx.tiles[k].id)
    ensures var u := Acknowledge(tx, from, end);
      && (tx.tiles[k].id in u.waiting <==> tx.tiles[k].id in tx.waiting)
      && (tx.tiles[k].id in u.priority <==> tx.tiles[k].id in tx.priority)
  {
    hide InPlace, Ordered, Highest, SentFirst, Names, Unlinked;
    UnlinkedMember(tx.waiting, tx.tiles, from, end, tx.tiles[k].id);
    UnlinkedMember(tx.priority, tx.tiles, from, end, tx.tiles[k].id);
  }

  /** A block ahead of a segment is counted for it. */
  lemma SackCounts(tx: Tx, r: Ring, first: uint32, last: uint32, k: nat)
    requires TxOk(tx, r) && BlockWithin(tx, first, last) && Sub(first, tx.current) < TWO31
    requires k < |tx.tiles| && Rel(tx.tiles[k], tx.current) < Sub(first, tx.current)
    ensures var u := TxSack(tx, first, last).0;
      && TxOk(u, r) && u.current == tx.current && |u.tiles| == |tx.tiles|
      && Counted(tx, u, k, Sub(first, tx.current))
  {
    hide TxOk, BlockWithin, Sub, CheckAck, FastRetransmit;
    var v := CheckAck(tx, first, last).0;
    BelowStays(tx, r, first, last, k);
    FastCounts(v, r, first, k);
    FastRetransmitOk(v, r, first);
    FastEdge(v, first);
  }

  /** After three blocks ahead of it, a segment that has not been sent again in between is in the
      priority queue, and not before. */
  lemma ThreeBlocks(tx: Tx, r: Ring, first: seq<uint32>, last: seq<uint32>, k: nat)
    returns (states: seq<Tx>)
    requires TxOk(tx, r) && |first| == |last| == 3 && k < |tx.tiles|
    requires tx.tiles[k].id in tx.waiting && tx.tiles[k].dupAckCount == 0
    requires forall i :: 0 <= i < 3 ==>
      && Sub(first[i], tx.current) + Sub(last[i], first[i]) <= InFlightOf(tx)
      && Rel(tx.tiles[k], tx.current) < Sub(first[i], tx.current)
    ensures |states| == 4 && states[0] == tx
    ensures forall i :: 0 <= i < 3 ==> states[i + 1] == TxSack(states[i], first[i], last[i]).0
    ensures forall i :: 0 <= i < 3 ==> tx.tiles[k].id in states[i].waiting && tx.tiles[k].id !in states[i].priority
    ensures tx.tiles[k].id in states[3].priority && tx.tiles[k].id !in states[3].waiting
  {
    hide TxOk, TxSack, Sub, Counted;
    var a := BlockCounted(tx, r, first[0], last[0], k, 0);
    WaitingIs(tx, r, k);
    var b := BlockCounted(a, r, first[1], last[1], k, 1);
    var c := BlockCounted(b, r, first[2], last[2], k, 2);
    states := [tx, a, b, c];
  }

  /** The number of bytes between the left edge and the highest number sent. */
  function InFlightOf(tx: Tx): nat
  {
    if |tx.queue| <= |tx.tiles| then InFlight(tx) else 0
  }

  lemma BlockCounted(tx: Tx, r: Ring, first: uint32, last: uint32, k: nat, n: byte) returns (u: Tx)
    requires TxOk(tx, r) && k < |tx.tiles| && tx.tiles[k].id in tx.waiting && tx.tiles[k].dupAckCount == n < 3
    requires Sub(first, tx.current) + Sub(last, first) <= InFlightOf(tx)
    requires Rel(tx.tiles[k], tx.current) < Sub(first, tx.current)
    ensures u == TxSack(tx, first, last).0 && TxOk(u, r) && u.current == tx.current && InFlightOf(u) == InFlightOf(tx)
    ensures |u.tiles| == |tx.tiles| && u.tiles[k].id == tx.tiles[k].id && u.tiles[k].seqNo == tx.tiles[k].seqNo
    ensures u.tiles[k].dupAckCount == n + 1
    ensures if n == 2 then tx.tiles[k].id in u.priority && tx.tiles[k].id !in u.waiting
            else tx.tiles[k].id in u.waiting && tx.tiles[k].id !in u.priority
  {
    hide TxOk, TxSack, Sub, InFlight;
    u := TxSack(tx, first, last).0;
    FlightFits(tx, r, first, last);
    SackCounts(tx, r, first, last, k);
    FlightKept(tx, r, first, last);
  }

  lemma AheadSame(tx: Tx, r: Ring, first: uint32, last: uint32)
    requires TxOk(tx, r) && BlockWithin(tx, first, last) && Sub(first, tx.current) > 0
    ensures var v := CheckAck(tx, first, last).0;
      v.queue == tx.queue && v.current == tx.current && SameShape(tx.tiles, v.tiles)
  {
    hide InPlace, Highest, Queued, Sub, Acknowledged, Unlinked, Ordered;
    var b := Acknowledged(tx, first, last);
    BlockTakesSent(tx, r, first, last);
    EdgeAt(tx.tiles, tx.current, r, 0);
    AddZero(tx.current);
    if b.0 < b.1 {
      FirstAtEdge(tx, r, b.0);
      QueueKept(tx.tiles, tx.current, tx.queue, b.0, b.1);
    } else {
      NothingUnlinked(tx, b.0);
    }
  }

  lemma FlightSame(tx: Tx, u: Tx)
    requires u.queue == tx.queue && u.current == tx.current && SameShape(tx.tiles, u.tiles)
    ensures InFlightOf(u) == InFlightOf(tx)
  {
    if |tx.queue| <= |tx.tiles| {
      BoundarySame(tx.tiles, u.tiles, tx.current, tx.Sent());
    }
  }

  /** A block ahead leaves the number of bytes in flight alone. */
  lemma FlightKept(tx: Tx, r: Ring, first: uint32, last: uint32)
    requires TxOk(tx, r) && BlockWithin(tx, first, last) && Sub(first, tx.current) > 0
    ensures InFlightOf(TxSack(tx, first, last).0) == InFlightOf(tx)
  {
    hide TxOk, BlockWithin, Sub, CheckAck, InFlightOf, SameShape, FastRetransmit;
    var v := CheckAck(tx, first, last).0;
    AheadSame(tx, r, first, last);
    FastEdge(v, first);
    FastShape(v, first);
    FlightSame(tx, v);
    FlightSame(v, FastRetransmit(v, first));
  }

  lemma FastShape(tx: Tx, first: uint32)
    ensures SameShape(tx.tiles, FastRetransmit(tx, first).tiles)
  {
    hide SameShape, Bumped, Select;
    BumpedSame(tx.tiles, tx.waiting, first);
  }

  lemma FlightFits(tx: Tx, r: Ring, first: uint32, last: uint32)
    requires TxOk(tx, r) && Sub(first, tx.current) + Sub(last, first) <= InFlightOf(tx)
    ensures |tx.queue| <= |tx.tiles| && BlockWithin(tx, first, last) && Sub(first, tx.current) < TWO31
  {
    hide QueuesOk, InPlace, Ordered, Highest, Sub;
    EdgeAt(tx.tiles, tx.current, r, tx.Sent());
  }
}
