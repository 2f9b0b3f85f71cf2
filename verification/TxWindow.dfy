/** The transmission half of a TCP window (FreeRTOS_TCP_WIN.c): segments of the transmit stream,
    the three queues they wait in, acknowledgements and retransmission.

    Offsets count from the left edge of the window, which belongs to the tail of the stream. */
module TxWindow {
  import opened Common
  import opened Seq32
  import opened StreamBuffers

  /** A transmission segment; id names its descriptor. */
  datatype Tile = Tile(id: nat, seqNo: uint32, maxLength: uint32, length: uint32, streamPos: nat,
                       transmitCount: byte, dupAckCount: byte, outstanding: bool, acked: bool)

  datatype Tx = Tx(current: uint32, highest: uint32, next: uint32, ourSeq: uint32,
                   windowLength: uint32, mss: uint16, sendFullSize: bool,
                   tiles: seq<Tile>, priority: seq<nat>, queue: seq<nat>, waiting: seq<nat>,
                   head: Option<nat>) {

    /** The number of segments that have been sent at least once. */
    function Sent(): nat
      requires |queue| <= |tiles|
    {
      |tiles| - |queue|
    }
  }

  function Rel(t: Tile, base: uint32): nat {
    Sub(t.seqNo, base)
  }

  function RelEnd(t: Tile, base: uint32): nat {
    Rel(t, base) + t.length
  }

  // ---- The structure of the window ------------------------------------------------------

  /** The segments tile the bytes from the left edge up to the mid marker of the stream: no gap,
      no overlap, none empty, each at the stream position that holds its bytes. */
  ghost predicate Tiling(tiles: seq<Tile>, base: uint32, r: Ring) {
    true <==>
    && r.Ok() && |r.view| <= TWO31 && r.mid <= r.size
    && InPlace(tiles, base, r)
    && Ordered(tiles, base)
    && Edge(tiles, base, 0) == 0
    && Edge(tiles, base, |tiles|) == r.mid
  }

  ghost predicate InPlace(tiles: seq<Tile>, base: uint32, r: Ring)
    requires r.tail < |r.view| && r.mid < |r.view|
  {
    forall i :: 0 <= i < |tiles| ==>
      && 0 < tiles[i].length <= tiles[i].maxLength
      && RelEnd(tiles[i], base) <= r.mid
      && tiles[i].streamPos == Advance(r.tail, Rel(tiles[i], base), |r.view|)
  }

  ghost predicate Ordered(tiles: seq<Tile>, base: uint32) {
    forall i, j :: 0 <= i < j < |tiles| ==>
      && RelEnd(tiles[i], base) <= Rel(tiles[j], base)
      && (j == i + 1 ==> RelEnd(tiles[i], base) == Rel(tiles[j], base))
      && tiles[i].id != tiles[j].id
  }

  /** The sequence number at the boundary in front of segment i. */
  function Boundary(tiles: seq<Tile>, base: uint32, i: nat): uint32
    requires i <= |tiles|
  {
    if tiles == [] then base
    else if i < |tiles| then tiles[i].seqNo
    else Add(tiles[i - 1].seqNo, tiles[i - 1].length)
  }

  function Edge(tiles: seq<Tile>, base: uint32, i: nat): uint32
    requires i <= |tiles|
  {
    Sub(Boundary(tiles, base, i), base)
  }

  /** Sent segments are outstanding and those not sent yet wait in the transmit queue, in
      order; no segment not sent yet is acknowledged. */
  ghost predicate SentFirst(tiles: seq<Tile>, queue: seq<nat>) {
    && |queue| <= |tiles|
    && (forall i :: 0 <= i < |tiles| - |queue| ==> tiles[i].outstanding)
    && (forall i :: |tiles| - |queue| <= i < |tiles| ==>
          !tiles[i].outstanding && !tiles[i].acked && queue[i - (|tiles| - |queue|)] == tiles[i].id)
  }

  /** id belongs to one of the first n segments, and that one is not acknowledged. */
  ghost predicate Pending(tiles: seq<Tile>, n: nat, id: nat)
    requires n <= |tiles|
  {
    exists i :: 0 <= i < n && tiles[i].id == id && !tiles[i].acked
  }

  /** Every sent segment that is not acknowledged is in exactly one of the priority and waiting
      queues, once; an acknowledged one is in none. */
  ghost predicate Queued(tiles: seq<Tile>, n: nat, priority: seq<nat>, waiting: seq<nat>)
    requires n <= |tiles|
  {
    && NoDup(priority) && NoDup(waiting)
    && (forall id :: id in priority ==> id !in waiting)
    && (forall id :: id in priority || id in waiting <==> Pending(tiles, n, id))
  }

  /** The segment that may still grow is the last one, not sent and not full. */
  ghost predicate Growing(tiles: seq<Tile>, queue: seq<nat>, id: nat) {
    && queue != [] && tiles != []
    && id == tiles[|tiles| - 1].id
    && tiles[|tiles| - 1].length < tiles[|tiles| - 1].maxLength
  }

  /** The highest number sent: the end of the last segment sent, or one below the left edge as
      long as nothing has been sent at all. */
  ghost predicate Highest(tiles: seq<Tile>, base: uint32, n: nat, highest: uint32)
    requires n <= |tiles|
  {
    || (n == 0 && highest == Sub(base, 1))
    || highest == Boundary(tiles, base, n)
  }

  /** The numbers of a window with the given number of sent segments fit its stream. */
  ghost predicate EdgesOk(tiles: seq<Tile>, sent: nat, current: uint32, next: uint32, highest: uint32, r: Ring) {
    true <==>
    && Tiling(tiles, current, r)
    && next == Add(current, r.mid)
    && sent <= |tiles|
    && Highest(tiles, current, sent, highest)
  }

  ghost predicate QueuesOk(tiles: seq<Tile>, queue: seq<nat>, priority: seq<nat>, waiting: seq<nat>,
                           head: Option<nat>) {
    && SentFirst(tiles, queue)
    && Queued(tiles, |tiles| - |queue|, priority, waiting)
    && match head
       case None => true
       case Some(id) => Growing(tiles, queue, id)
  }

  /** The structure every operation keeps. */
  ghost predicate TxOk(tx: Tx, r: Ring) {
    true <==>
    && 0 < tx.mss
    && QueuesOk(tx.tiles, tx.queue, tx.priority, tx.waiting, tx.head)
    && EdgesOk(tx.tiles, tx.Sent(), tx.current, tx.next, tx.highest, r)
  }

  lemma Assembled(tx: Tx, r: Ring)
    requires 0 < tx.mss && QueuesOk(tx.tiles, tx.queue, tx.priority, tx.waiting, tx.head) && |tx.queue| <= |tx.tiles|
    requires EdgesOk(tx.tiles, tx.Sent(), tx.current, tx.next, tx.highest, r)
    ensures TxOk(tx, r)
  {}

  // ---- Acknowledgements -----------------------------------------------------------------

  /** The first segment that an acknowledged block starting at first does not skip. */
  function SkipTo(tiles: seq<Tile>, i: nat, first: uint32): (r: nat)
    requires i <= |tiles|
    ensures i <= r <= |tiles|
    decreases |tiles| - i
  {
    if i < |tiles| && Greater(first, tiles[i].seqNo) then SkipTo(tiles, i + 1, first) else i
  }

  /** Whether the block up to last takes the segment in. */
  predicate Takes(t: Tile, last: uint32) {
    Less(t.seqNo, last) && (t.acked || !Greater(Add(t.seqNo, t.length), last))
  }

  /** The first segment from i on that the block does not take in. */
  function TakeTo(tiles: seq<Tile>, i: nat, last: uint32): (r: nat)
    requires i <= |tiles|
    ensures i <= r <= |tiles|
    ensures forall k :: i <= k < r ==> Takes(tiles[k], last)
    decreases |tiles| - i
  {
    if i < |tiles| && Takes(tiles[i], last) then TakeTo(tiles, i + 1, last) else i
  }

  /** The list without the segments [from, end). */
  function Unlinked(list: seq<nat>, tiles: seq<Tile>, from: nat, end: nat): seq<nat>
    requires from <= end <= |tiles|
    decreases end
  {
    if from == end then list else Without<nat>(Unlinked(list, tiles, from, end - 1), tiles[end - 1].id)
  }

  /** The segments with those of [from, to) marked as acknowledged. */
  function Marked(tiles: seq<Tile>, from: nat, end: nat): (r: seq<Tile>)
    requires from <= end <= |tiles|
    ensures |r| == |tiles|
    ensures forall i :: 0 <= i < |r| ==> r[i] == if from <= i < end then tiles[i].(acked := true) else tiles[i]
  {
    seq(|tiles|, i requires 0 <= i < |tiles| =>
      if from <= i < end then tiles[i].(acked := true) else tiles[i])
  }

  /** The effect of acknowledging the segments [from, end): at the left edge they go, and the edge
      moves to their end; further on they are marked and leave the queues. */
  function Acknowledge(tx: Tx, from: nat, end: nat): (r: Tx)
    requires from <= end <= |tx.tiles|
  {
    tx.(priority := Unlinked(tx.priority, tx.tiles, from, end),
        queue := Unlinked(tx.queue, tx.tiles, from, end),
        waiting := Unlinked(tx.waiting, tx.tiles, from, end),
        tiles := if from == 0 then tx.tiles[end..] else Marked(tx.tiles, from, end),
        current := if from == 0 then Boundary(tx.tiles, tx.current, end) else tx.current)
  }

  /** prvTCPWindowTxCheckAck: the segments a block [first, last) acknowledges. */
  function Acknowledged(tx: Tx, first: uint32, last: uint32): (r: (nat, nat))
    ensures r.0 <= r.1 <= |tx.tiles|
  {
    var i := SkipTo(tx.tiles, 0, first);
    if Less(first, last) && i < |tx.tiles| && first == tx.tiles[i].seqNo then (i, TakeTo(tx.tiles, i, last))
    else (i, i)
  }

  /** The window after the block, and how many bytes the tail of the stream may move. */
  function CheckAck(tx: Tx, first: uint32, last: uint32): (r: (Tx, nat)) {
    var b := Acknowledged(tx, first, last);
    (Acknowledge(tx, b.0, b.1), if b.0 == 0 then Edge(tx.tiles, tx.current, b.1) else 0)
  }

  function TxAck(tx: Tx, ack: uint32): (r: (Tx, nat)) {
    if LessOrEqual(ack, tx.current) then (tx, 0) else CheckAck(tx, tx.current, ack)
  }

  // ---- Boundaries -----------------------------------------------------------------------

  lemma EdgeAt(tiles: seq<Tile>, base: uint32, r: Ring, i: nat)
    requires Tiling(tiles, base, r) && i <= |tiles|
    ensures i < |tiles| ==> Edge(tiles, base, i) == Rel(tiles[i], base)
    ensures 0 < i ==> Edge(tiles, base, i) == RelEnd(tiles[i - 1], base)
    ensures Edge(tiles, base, i) <= r.mid
    ensures Boundary(tiles, base, i) == Add(base, Edge(tiles, base, i))
  {
    if 0 < i {
      assert RelEnd(tiles[i - 1], base) <= r.mid;
      if i < |tiles| {
        assert RelEnd(tiles[i - 1], base) == Rel(tiles[i], base);
      }
    }
  }

  /** Segments below and above a boundary. */
  lemma EdgeSplits(tiles: seq<Tile>, base: uint32, r: Ring, i: nat, k: nat)
    requires Tiling(tiles, base, r) && i <= |tiles| && k < |tiles|
    ensures k < i <==> Rel(tiles[k], base) < Edge(tiles, base, i)
    ensures k < i <==> RelEnd(tiles[k], base) <= Edge(tiles, base, i)
  {
    EdgeAt(tiles, base, r, i);
    assert 0 < tiles[k].length;
    if k + 1 < i {
      assert RelEnd(tiles[k], base) <= Rel(tiles[i - 1], base);
    } else if i < k {
      assert RelEnd(tiles[i], base) <= Rel(tiles[k], base);
    }
  }

  /** One segment seen from a boundary below it. */
  lemma RelDrop(tiles: seq<Tile>, base: uint32, r: Ring, n: nat, i: nat)
    requires Tiling(tiles, base, r) && n <= i < |tiles|
    ensures var k := Edge(tiles, base, n); var base' := Boundary(tiles, base, n);
      && k <= r.mid && RelEnd(tiles[i], base) <= r.mid
      && Rel(tiles[i], base') == Rel(tiles[i], base) - k
      && tiles[i].streamPos == Advance(Advance(r.tail, k, |r.view|), Rel(tiles[i], base'), |r.view|)
  {
    EdgeAt(tiles, base, r, n);
    EdgeSplits(tiles, base, r, n, i);
    assert RelEnd(tiles[i], base) <= r.mid;
    var k := Edge(tiles, base, n);
    assert Boundary(tiles, base, n) == Add(base, k);
    Placed(r.tail, k, Rel(tiles[i], base) - k, |r.view|);
  }

  lemma OrderDrop(tiles: seq<Tile>, base: uint32, r: Ring, n: nat, i: nat, j: nat)
    requires Tiling(tiles, base, r) && n <= i < j < |tiles|
    ensures var base' := Boundary(tiles, base, n);
      && RelEnd(tiles[i], base') <= Rel(tiles[j], base')
      && (j == i + 1 ==> RelEnd(tiles[i], base') == Rel(tiles[j], base'))
      && tiles[i].id != tiles[j].id
  {
    RelDrop(tiles, base, r, n, i);
    RelDrop(tiles, base, r, n, j);
    assert RelEnd(tiles[i], base) <= Rel(tiles[j], base);
  }

  lemma SubAdds(base: uint32, n: uint32, m: uint32)
    ensures n <= m ==> Sub(Add(base, m), Add(base, n)) == m - n
  {}

  lemma EdgeDrop(tiles: seq<Tile>, base: uint32, r: Ring, n: nat, m: nat)
    requires Tiling(tiles, base, r) && n <= m <= |tiles|
    ensures Boundary(tiles[n..], Boundary(tiles, base, n), m - n) == Boundary(tiles, base, m)
    ensures Edge(tiles[n..], Boundary(tiles, base, n), m - n) == Edge(tiles, base, m) - Edge(tiles, base, n)
  {
    hide InPlace, Ordered, Sub, Add;
    EdgeAt(tiles, base, r, n);
    EdgeAt(tiles, base, r, m);
    SubAdds(base, Edge(tiles, base, n), Edge(tiles, base, m));
    if n < m {
      EdgeSplits(tiles, base, r, m, n);
      assert Edge(tiles, base, n) == Rel(tiles[n], base);
      assert tiles[n..][m - n - 1] == tiles[m - 1];
    }
  }

  lemma RingDropped(r: Ring, k: nat)
    requires r.Ok() && k <= r.mid <= r.size
    ensures var d := r.Drop(k);
      d.Ok() && d.tail == Advance(r.tail, k, |r.view|) && |d.view| == |r.view|
      && d.mid == r.mid - k && d.size == r.size - k
  {}

  lemma InPlaceDrop(tiles: seq<Tile>, base: uint32, r: Ring, n: nat)
    requires Tiling(tiles, base, r) && n <= |tiles| && Edge(tiles, base, n) <= r.mid
    ensures InPlace(tiles[n..], Boundary(tiles, base, n), r.Drop(Edge(tiles, base, n)))
  {
    var k := Edge(tiles, base, n);
    var rest, base' := tiles[n..], Boundary(tiles, base, n);
    RingDropped(r, k);
    forall i | 0 <= i < |rest|
      ensures 0 < rest[i].length <= rest[i].maxLength
      ensures RelEnd(rest[i], base') <= r.mid - k
      ensures rest[i].streamPos == Advance(Advance(r.tail, k, |r.view|), Rel(rest[i], base'), |r.view|)
    {
      var x := n + i;
      assert rest[i] == tiles[x];
      RelDrop(tiles, base, r, n, x);
    }
  }

  lemma OrderedDrop(tiles: seq<Tile>, base: uint32, r: Ring, n: nat)
    requires Tiling(tiles, base, r) && n <= |tiles|
    ensures Ordered(tiles[n..], Boundary(tiles, base, n))
  {
    var rest, base' := tiles[n..], Boundary(tiles, base, n);
    forall i, j | 0 <= i < j < |rest|
      ensures
        && RelEnd(rest[i], base') <= Rel(rest[j], base')
        && (j == i + 1 ==> RelEnd(rest[i], base') == Rel(rest[j], base'))
        && rest[i].id != rest[j].id
    {
      var x, y := n + i, n + j;
      assert rest[i] == tiles[x] && rest[j] == tiles[y];
      OrderDrop(tiles, base, r, n, x, y);
    }
  }

  /** Taking whole segments off the left moves edge and tail together. */
  lemma TilingDrop(tiles: seq<Tile>, base: uint32, r: Ring, n: nat)
    requires Tiling(tiles, base, r) && n <= |tiles|
    ensures Edge(tiles, base, n) <= r.mid
    ensures Tiling(tiles[n..], Boundary(tiles, base, n), r.Drop(Edge(tiles, base, n)))
  {
    EdgeAt(tiles, base, r, n);
    EdgeDrop(tiles, base, r, n, n);
    EdgeDrop(tiles, base, r, n, |tiles|);
    InPlaceDrop(tiles, base, r, n);
    OrderedDrop(tiles, base, r, n);
    RingDropped(r, Edge(tiles, base, n));
  }

  /** Two lists of segments that differ in flags and counters only. */
  ghost predicate SameShape(tiles: seq<Tile>, t: seq<Tile>) {
    && |t| == |tiles|
    && forall i :: 0 <= i < |t| ==>
         && t[i].id == tiles[i].id && t[i].seqNo == tiles[i].seqNo && t[i].length == tiles[i].length
         && t[i].maxLength == tiles[i].maxLength && t[i].streamPos == tiles[i].streamPos
  }

  lemma OrderedSame(tiles: seq<Tile>, t: seq<Tile>, base: uint32)
    requires Ordered(tiles, base) && SameShape(tiles, t)
    ensures Ordered(t, base)
  {}

  lemma BoundarySame(tiles: seq<Tile>, t: seq<Tile>, base: uint32, n: nat)
    requires SameShape(tiles, t) && n <= |tiles|
    ensures Boundary(t, base, n) == Boundary(tiles, base, n)
  {}

  lemma TilingSame(tiles: seq<Tile>, t: seq<Tile>, base: uint32, r: Ring)
    requires Tiling(tiles, base, r) && SameShape(tiles, t)
    ensures Tiling(t, base, r)
  {
    OrderedSame(tiles, t, base);
    BoundarySame(tiles, t, base, 0);
    BoundarySame(tiles, t, base, |tiles|);
  }

  lemma EdgesSame(tiles: seq<Tile>, t: seq<Tile>, sent: nat, current: uint32, next: uint32, highest: uint32, r: Ring)
    requires EdgesOk(tiles, sent, current, next, highest, r) && SameShape(tiles, t)
    ensures EdgesOk(t, sent, current, next, highest, r)
  {
    TilingSame(tiles, t, current, r);
    BoundarySame(tiles, t, current, sent);
  }

  // ---- Queues ---------------------------------------------------------------------------

  /** id names one of the segments [from, end). */
  ghost predicate Names(tiles: seq<Tile>, from: nat, end: nat, id: nat)
    requires from <= end <= |tiles|
  {
    exists k :: from <= k < end && tiles[k].id == id
  }

  lemma NamesOneMore(tiles: seq<Tile>, from: nat, end: nat, id: nat)
    requires from < end <= |tiles|
    ensures Names(tiles, from, end, id) <==> Names(tiles, from, end - 1, id) || id == tiles[end - 1].id
  {}

  lemma {:induction false} UnlinkedMember(list: seq<nat>, tiles: seq<Tile>, from: nat, end: nat, id: nat)
    requires from <= end <= |tiles| && NoDup(list)
    ensures NoDup(Unlinked(list, tiles, from, end))
    ensures id in Unlinked(list, tiles, from, end) <==> id in list && !Names(tiles, from, end, id)
    decreases end
  {
    if from < end {
      UnlinkedMember(list, tiles, from, end - 1, id);
      WithoutMember(Unlinked(list, tiles, from, end - 1), tiles[end - 1].id, id);
      NamesOneMore(tiles, from, end, id);
    }
  }

  /** Unlinking names a list does not contain. */
  lemma {:induction false} UnlinkedForeign(list: seq<nat>, tiles: seq<Tile>, from: nat, end: nat)
    requires from <= end <= |tiles|
    requires forall k :: from <= k < end ==> tiles[k].id !in list
    ensures Unlinked(list, tiles, from, end) == list
    decreases end
  {
    if from < end {
      UnlinkedForeign(list, tiles, from, end - 1);
      WithoutForeign(list, tiles[end - 1].id);
    }
  }

  lemma PendingDrop(tiles: seq<Tile>, base: uint32, n: nat, m: nat, id: nat)
    requires Ordered(tiles, base) && n <= m <= |tiles|
    ensures Pending(tiles[n..], m - n, id) <==> Pending(tiles, m, id) && !Names(tiles, 0, n, id)
  {}

  lemma PendingMark(tiles: seq<Tile>, base: uint32, from: nat, end: nat, m: nat, id: nat)
    requires Ordered(tiles, base) && from <= end <= m <= |tiles|
    ensures Pending(Marked(tiles, from, end), m, id) <==> Pending(tiles, m, id) && !Names(tiles, from, end, id)
  {}

  /** The queues after a block: what was pending and not in the block is still queued once. */
  lemma QueuedUnlinked(tiles: seq<Tile>, after: seq<Tile>, from: nat, end: nat, m: nat, m': nat,
                       priority: seq<nat>, waiting: seq<nat>)
    requires from <= end <= m <= |tiles| && m' <= |after|
    requires Queued(tiles, m, priority, waiting)
    requires forall id :: Pending(after, m', id) <==> Pending(tiles, m, id) && !Names(tiles, from, end, id)
    ensures Queued(after, m', Unlinked(priority, tiles, from, end), Unlinked(waiting, tiles, from, end))
  {
    var p, w := Unlinked(priority, tiles, from, end), Unlinked(waiting, tiles, from, end);
    UnlinkedMember(priority, tiles, from, end, 0);
    UnlinkedMember(waiting, tiles, from, end, 0);
    forall id
      ensures id in p ==> id !in w
      ensures id in p || id in w <==> Pending(after, m', id)
    {
      UnlinkedMember(priority, tiles, from, end, id);
      UnlinkedMember(waiting, tiles, from, end, id);
    }
  }

  lemma SentNotQueued(tiles: seq<Tile>, base: uint32, queue: seq<nat>, k: nat)
    requires Ordered(tiles, base) && SentFirst(tiles, queue) && k < |tiles| - |queue|
    ensures tiles[k].id !in queue
  {
    forall i | 0 <= i < |queue| ensures queue[i] != tiles[k].id {
      var j := |tiles| - |queue| + i;
      assert queue[j - (|tiles| - |queue|)] == tiles[j].id;
    }
  }

  // ---- Acknowledging sent segments ------------------------------------------------------

  lemma SentFirstDrop(tiles: seq<Tile>, queue: seq<nat>, n: nat)
    requires SentFirst(tiles, queue) && n <= |tiles| - |queue|
    ensures SentFirst(tiles[n..], queue)
  {}

  lemma QueueKept(tiles: seq<Tile>, base: uint32, queue: seq<nat>, from: nat, end: nat)
    requires Ordered(tiles, base) && SentFirst(tiles, queue) && from <= end <= |tiles| - |queue|
    ensures Unlinked(queue, tiles, from, end) == queue
  {
    forall i | from <= i < end ensures tiles[i].id !in queue {
      SentNotQueued(tiles, base, queue, i);
    }
    UnlinkedForeign(queue, tiles, from, end);
  }

  lemma QueuesLeft(tiles: seq<Tile>, base: uint32, queue: seq<nat>, priority: seq<nat>, waiting: seq<nat>,
                   head: Option<nat>, end: nat)
    requires Ordered(tiles, base) && QueuesOk(tiles, queue, priority, waiting, head) && end <= |tiles| - |queue|
    ensures Unlinked(queue, tiles, 0, end) == queue
    ensures QueuesOk(tiles[end..], queue, Unlinked(priority, tiles, 0, end), Unlinked(waiting, tiles, 0, end), head)
  {
    hide Queued, Names, Pending, Unlinked;
    QueueKept(tiles, base, queue, 0, end);
    SentFirstDrop(tiles, queue, end);
    var m := |tiles| - |queue|;
    forall id ensures Pending(tiles[end..], m - end, id) <==> Pending(tiles, m, id) && !Names(tiles, 0, end, id) {
      PendingDrop(tiles, base, end, m, id);
    }
    QueuedUnlinked(tiles, tiles[end..], 0, end, m, m - end, priority, waiting);
  }

  lemma HighestLeft(tiles: seq<Tile>, base: uint32, r: Ring, m: nat, highest: uint32, end: nat)
    requires Tiling(tiles, base, r) && end <= m <= |tiles|
    requires Highest(tiles, base, m, highest)
    ensures Highest(tiles[end..], Boundary(tiles, base, end), m - end, highest)
  {}

  lemma EdgesLeft(tiles: seq<Tile>, sent: nat, current: uint32, next: uint32, highest: uint32, r: Ring, end: nat)
    requires EdgesOk(tiles, sent, current, next, highest, r) && end <= sent
    ensures Edge(tiles, current, end) <= r.mid
    ensures EdgesOk(tiles[end..], sent - end, Boundary(tiles, current, end), next, highest,
      r.Drop(Edge(tiles, current, end)))
  {
    hide InPlace, Ordered;
    TilingDrop(tiles, current, r, end);
    EdgeAt(tiles, current, r, end);
    HighestLeft(tiles, current, r, sent, highest, end);
    var k := Edge(tiles, current, end);
    RingDropped(r, k);
    assert Add(Add(current, k), r.mid - k) == Add(current, r.mid);
  }

  /** Acknowledging sent segments at the left edge: they go, and the tail of the stream may pass
      exactly their bytes. */
  lemma AcknowledgeLeft(tx: Tx, r: Ring, end: nat)
    requires TxOk(tx, r) && end <= tx.Sent()
    ensures Edge(tx.tiles, tx.current, end) <= r.mid
    ensures TxOk(Acknowledge(tx, 0, end), r.Drop(Edge(tx.tiles, tx.current, end)))
  {
    hide InPlace, Ordered, Queued, SentFirst, Highest, Growing;
    QueuesLeft(tx.tiles, tx.current, tx.queue, tx.priority, tx.waiting, tx.head, end);
    EdgesLeft(tx.tiles, tx.Sent(), tx.current, tx.next, tx.highest, r, end);
    var u := Acknowledge(tx, 0, end);
    assert u.tiles == tx.tiles[end..] && u.queue == tx.queue && |u.queue| <= |u.tiles| && u.Sent() == tx.Sent() - end;
    assert u.priority == Unlinked(tx.priority, tx.tiles, 0, end) && u.waiting == Unlinked(tx.waiting, tx.tiles, 0, end);
    hide QueuesOk, EdgesOk, Unlinked;
    Assembled(u, r.Drop(Edge(tx.tiles, tx.current, end)));
  }

  lemma QueuesAhead(tiles: seq<Tile>, base: uint32, queue: seq<nat>, priority: seq<nat>, waiting: seq<nat>,
                    head: Option<nat>, from: nat, end: nat)
    requires Ordered(tiles, base) && QueuesOk(tiles, queue, priority, waiting, head)
    requires from <= end <= |tiles| - |queue|
    ensures Unlinked(queue, tiles, from, end) == queue
    ensures QueuesOk(Marked(tiles, from, end), queue,
                     Unlinked(priority, tiles, from, end), Unlinked(waiting, tiles, from, end), head)
  {
    hide Queued, Names, Pending, Unlinked;
    QueueKept(tiles, base, queue, from, end);
    var m := |tiles| - |queue|;
    forall id ensures Pending(Marked(tiles, from, end), m, id)
      <==> Pending(tiles, m, id) && !Names(tiles, from, end, id) {
      PendingMark(tiles, base, from, end, m, id);
    }
    QueuedUnlinked(tiles, Marked(tiles, from, end), from, end, m, m, priority, waiting);
  }

  /** Acknowledging sent segments further on: they are marked and leave the queues. */
  lemma AcknowledgeAhead(tx: Tx, r: Ring, from: nat, end: nat)
    requires TxOk(tx, r) && 0 < from <= end <= tx.Sent()
    ensures TxOk(Acknowledge(tx, from, end), r)
  {
    hide InPlace, Ordered, Queued, SentFirst, Highest, Growing;
    QueuesAhead(tx.tiles, tx.current, tx.queue, tx.priority, tx.waiting, tx.head, from, end);
    EdgesSame(tx.tiles, Marked(tx.tiles, from, end), tx.Sent(), tx.current, tx.next, tx.highest, r);
    var u := Acknowledge(tx, from, end);
    assert u.tiles == Marked(tx.tiles, from, end) && u.queue == tx.queue && u.Sent() == tx.Sent();
    hide QueuesOk, EdgesOk;
  }

  // ---- Blocks ---------------------------------------------------------------------------

  /** The block acknowledges nothing beyond what has been sent, or starts left of the window. */
  ghost predicate BlockWithin(tx: Tx, first: uint32, last: uint32)
    requires |tx.queue| <= |tx.tiles|
  {
    || Sub(first, tx.current) >= TWO31
    || Sub(first, tx.current) + Sub(last, first) <= Edge(tx.tiles, tx.current, tx.Sent())
  }

  /** What the block takes in, in offsets. */
  lemma TakesMeans(t: Tile, base: uint32, first: uint32, last: uint32)
    requires RelEnd(t, base) < TWO31 && Sub(first, base) + Sub(last, first) < TWO31
    ensures Takes(t, last) <==>
      Rel(t, base) < Sub(first, base) + Sub(last, first)
      && (t.acked || RelEnd(t, base) <= Sub(first, base) + Sub(last, first))
  {
    assert Sub(last, base) == Sub(first, base) + Sub(last, first);
    assert Sub(Add(t.seqNo, t.length), base) == RelEnd(t, base);
  }

  lemma RelBound(tiles: seq<Tile>, base: uint32, r: Ring, k: nat)
    requires Tiling(tiles, base, r) && k < |tiles|
    ensures RelEnd(tiles[k], base) <= r.mid < TWO31 && 0 < tiles[k].length
  {}

  /** The segments that a block acknowledges have been sent, and each that was not acknowledged
      before lies within the block. */
  lemma BlockTakesSent(tx: Tx, r: Ring, first: uint32, last: uint32)
    requires TxOk(tx, r) && BlockWithin(tx, first, last)
    ensures var b := Acknowledged(tx, first, last);
      && b.0 <= b.1
      && (b.0 < b.1 ==> b.1 <= tx.Sent() && tx.tiles[b.0].seqNo == first)
      && forall k :: b.0 <= k < b.1 && !tx.tiles[k].acked ==>
           Sub(first, tx.current) <= Rel(tx.tiles[k], tx.current)
           && RelEnd(tx.tiles[k], tx.current) <= Sub(first, tx.current) + Sub(last, first)
  {
    hide Queued, SentFirst, Highest;
    var b := Acknowledged(tx, first, last);
    if b.0 < b.1 {
      var i := b.0;
      RelBound(tx.tiles, tx.current, r, i);
      EdgeAt(tx.tiles, tx.current, r, tx.Sent());
      forall k | b.0 <= k < b.1
        ensures k < tx.Sent()
        ensures Sub(first, tx.current) <= Rel(tx.tiles[k], tx.current)
        ensures tx.tiles[k].acked || RelEnd(tx.tiles[k], tx.current) <= Sub(first, tx.current) + Sub(last, first)
      {
        RelBound(tx.tiles, tx.current, r, k);
        TakesMeans(tx.tiles[k], tx.current, first, last);
        EdgeSplits(tx.tiles, tx.current, r, tx.Sent(), k);
        if i < k {
          assert RelEnd(tx.tiles[i], tx.current) <= Rel(tx.tiles[k], tx.current);
        }
      }
      assert b.1 - 1 < tx.Sent();
    }
  }

  lemma NothingUnlinked(tx: Tx, i: nat)
    requires i <= |tx.tiles|
    ensures i == 0 ==> Acknowledge(tx, i, i) == tx.(current := Boundary(tx.tiles, tx.current, 0))
    ensures i != 0 ==> Acknowledge(tx, i, i) == tx
  {}

  lemma DropZero(r: Ring)
    requires r.Ok()
    ensures r.Drop(0) == r
  {}

  /** Any block within what has been sent keeps the structure; the count returned is what the
      left edge moved and what the tail of the stream may pass. */
  lemma CheckAckOk(tx: Tx, r: Ring, first: uint32, last: uint32)
    requires TxOk(tx, r) && BlockWithin(tx, first, last)
    ensures var (tx', count) := CheckAck(tx, first, last);
      count <= r.mid && tx'.current == Add(tx.current, count) && TxOk(tx', r.Drop(count))
  {
    BlockTakesSent(tx, r, first, last);
    var b := Acknowledged(tx, first, last);
    EdgeAt(tx.tiles, tx.current, r, b.1);
    EdgeAt(tx.tiles, tx.current, r, 0);
    DropZero(r);
    if b.0 == b.1 {
      NothingUnlinked(tx, b.0);
    } else if b.0 == 0 {
      AcknowledgeLeft(tx, r, b.1);
    } else {
      AcknowledgeAhead(tx, r, b.0, b.1);
    }
  }

  // ---- Fast retransmission --------------------------------------------------------------

  /** Segments below an acknowledged block have their count of duplicates increased. */
  predicate Passed(t: Tile, waiting: seq<nat>, first: uint32) {
    t.id in waiting && !t.acked && Less(t.seqNo, first)
  }

  predicate Due(t: Tile, waiting: seq<nat>, first: uint32) {
    Passed(t, waiting, first) && (t.dupAckCount + 1) % 256 == 3
  }

  function Bump(t: Tile, waiting: seq<nat>, first: uint32): Tile {
    if Due(t, waiting, first) then t.(dupAckCount := 3, transmitCount := 0)
    else if Passed(t, waiting, first) then t.(dupAckCount := (t.dupAckCount + 1) % 256)
    else t
  }

  function Bumped(tiles: seq<Tile>, waiting: seq<nat>, first: uint32): (r: seq<Tile>)
    ensures |r| == |tiles| && forall i :: 0 <= i < |r| ==> r[i] == Bump(tiles[i], waiting, first)
  {
    seq(|tiles|, i requires 0 <= i < |tiles| => Bump(tiles[i], waiting, first))
  }

  /** id names a segment that is due for fast retransmission. */
  predicate NamesDue(tiles: seq<Tile>, waiting: seq<nat>, first: uint32, id: nat) {
    exists i :: 0 <= i < |tiles| && tiles[i].id == id && Due(tiles[i], waiting, first)
  }

  /** The part of list that is due, or that is not, in order. */
  function Select(list: seq<nat>, tiles: seq<Tile>, waiting: seq<nat>, first: uint32, due: bool): (r: seq<nat>)
    ensures forall id :: id in r <==> id in list && NamesDue(tiles, waiting, first, id) == due
    ensures |r| <= |list|
  {
    if list == [] then []
    else
      var rest := Select(list[..|list| - 1], tiles, waiting, first, due);
      var id := list[|list| - 1];
      assert list == list[..|list| - 1] + [id];
      if NamesDue(tiles, waiting, first, id) == due then rest + [id] else rest
  }

  /** prvTCPWindowFastRetransmit: what has been passed three times moves to the priority queue. */
  function FastRetransmit(tx: Tx, first: uint32): Tx {
    tx.(tiles := Bumped(tx.tiles, tx.waiting, first),
        waiting := Select(tx.waiting, tx.tiles, tx.waiting, first, false),
        priority := tx.priority + Select(tx.waiting, tx.tiles, tx.waiting, first, true))
  }

  function TxSack(tx: Tx, first: uint32, last: uint32): (r: (Tx, nat)) {
    var r := CheckAck(tx, first, last);
    (FastRetransmit(r.0, first), r.1)
  }

  lemma {:induction false} SelectNoDup(list: seq<nat>, tiles: seq<Tile>, waiting: seq<nat>, first: uint32, due: bool)
    requires NoDup(list)
    ensures NoDup(Select(list, tiles, waiting, first, due))
  {
    if list != [] {
      SelectNoDup(list[..|list| - 1], tiles, waiting, first, due);
      assert list[|list| - 1] !in list[..|list| - 1];
    }
  }

  lemma PendingBumped(tiles: seq<Tile>, waiting: seq<nat>, first: uint32, n: nat, id: nat)
    requires n <= |tiles|
    ensures Pending(Bumped(tiles, waiting, first), n, id) <==> Pending(tiles, n, id)
  {}

  lemma NoDupAppend(a: seq<nat>, b: seq<nat>)
    requires NoDup(a) && NoDup(b) && forall id :: id in a ==> id !in b
    ensures NoDup(a + b)
  {
    var c := a + b;
    forall i, j | 0 <= i < j < |c| ensures c[i] != c[j] {
      if i < |a| <= j {
        assert a[i] in a && b[j - |a|] in b;
      }
    }
  }

  lemma FastQueued(tiles: seq<Tile>, n: nat, priority: seq<nat>, waiting: seq<nat>, first: uint32)
    requires n <= |tiles| && Queued(tiles, n, priority, waiting)
    ensures Queued(Bumped(tiles, waiting, first), n,
                   priority + Select(waiting, tiles, waiting, first, true),
                   Select(waiting, tiles, waiting, first, false))
  {
    var d, k := Select(waiting, tiles, waiting, first, true), Select(waiting, tiles, waiting, first, false);
    SelectNoDup(waiting, tiles, waiting, first, true);
    SelectNoDup(waiting, tiles, waiting, first, false);
    NoDupAppend(priority, d);
    forall id
      ensures id in priority + d ==> id !in k
      ensures id in priority + d || id in k <==> Pending(Bumped(tiles, waiting, first), n, id)
    {
      PendingBumped(tiles, waiting, first, n, id);
    }
  }

  lemma FastQueues(tiles: seq<Tile>, queue: seq<nat>, priority: seq<nat>, waiting: seq<nat>, head: Option<nat>,
                   first: uint32)
    requires QueuesOk(tiles, queue, priority, waiting, head)
    ensures QueuesOk(Bumped(tiles, waiting, first), queue,
                     priority + Select(waiting, tiles, waiting, first, true),
                     Select(waiting, tiles, waiting, first, false), head)
  {
    FastQueued(tiles, |tiles| - |queue|, priority, waiting, first);
  }

  lemma BumpedSame(tiles: seq<Tile>, waiting: seq<nat>, first: uint32)
    ensures SameShape(tiles, Bumped(tiles, waiting, first))
  {}

  /** Moving segments to the priority queue keeps the structure. */
  lemma FastRetransmitOk(tx: Tx, r: Ring, first: uint32)
    requires TxOk(tx, r)
    ensures TxOk(FastRetransmit(tx, first), r)
  {
    BumpedSame(tx.tiles, tx.waiting, first);
    EdgesSame(tx.tiles, Bumped(tx.tiles, tx.waiting, first), tx.Sent(), tx.current, tx.next, tx.highest, r);
    FastQueues(tx.tiles, tx.queue, tx.priority, tx.waiting, tx.head, first);
    var u := FastRetransmit(tx, first);
    assert u.tiles == Bumped(tx.tiles, tx.waiting, first) && u.queue == tx.queue && u.Sent() == tx.Sent();
  }

  // ---- Transmitting ---------------------------------------------------------------------

  /** The bytes sent and not acknowledged, as the source counts them: it compares the two
      32-bit numbers as they are. */
  function Outstanding(tx: Tx): uint32 {
    if tx.highest >= tx.current then tx.highest - tx.current else 0
  }

  /** prvTCPWindowTxHasSpace for the segment at the head of the transmit queue. */
  predicate HasSpace(tx: Tx, t: Tile, window: uint32) {
    && window - Min(window, Outstanding(tx)) >= t.length
    && !(Outstanding(tx) != 0 && tx.windowLength < Outstanding(tx) + t.length)
  }

  /** The segment with the given name. */
  function Named(tiles: seq<Tile>, id: nat): (i: nat)
    requires exists i :: 0 <= i < |tiles| && tiles[i].id == id
    ensures i < |tiles| && tiles[i].id == id
  {
    if tiles[0].id == id then 0
    else
      assert exists i :: 0 <= i < |tiles[1..]| && tiles[1..][i].id == id by {
        var i :| 0 <= i < |tiles| && tiles[i].id == id;
        assert tiles[1..][i - 1].id == id;
      }
      Named(tiles[1..], id) + 1
  }

  /** The window's own limit after a segment has been sent count times: the fourth time it shrinks to
      two segments. */
  function SentWindow(tx: Tx, count: byte): uint32 {
    if count == 4 && tx.windowLength > 2 * tx.mss then 2 * tx.mss else tx.windowLength
  }

  /** A segment goes out: it is outstanding, one more transmission is counted, and it waits for
      its acknowledgement at the end of the waiting queue. */
  function Transmit(tx: Tx, i: nat): (r: Tx)
    requires i < |tx.tiles|
  {
    var t := tx.tiles[i];
    var count := (t.transmitCount + 1) % 256;
    tx.(waiting := tx.waiting + [t.id],
        tiles := tx.tiles[i := t.(outstanding := true, transmitCount := count)],
        windowLength := SentWindow(tx, count),
        ourSeq := t.seqNo)
  }

  /** Taking a segment out of the queue it leaves. */
  function TakePriority(tx: Tx): Tx
    requires tx.priority != []
  {
    tx.(priority := tx.priority[1..])
  }

  function TakeWaiting(tx: Tx, i: nat): Tx
    requires tx.waiting != [] && i < |tx.tiles|
  {
    tx.(waiting := tx.waiting[1..], tiles := tx.tiles[i := tx.tiles[i].(dupAckCount := 0)])
  }

  function TakeNew(tx: Tx): Tx
    requires 0 < |tx.queue| <= |tx.tiles|
  {
    var t := tx.tiles[tx.Sent()];
    tx.(queue := tx.queue[1..],
        head := if tx.head == Some(t.id) then None else tx.head,
        highest := Add(t.seqNo, t.length))
  }

  /** Which segment ulTCPWindowTxGet sends: a priority one, else the longest waiting one if its
      time is up, else the next new one if the windows allow it. The window has the segment
      taken out of its queue. */
  function Choose(tx: Tx, window: uint32, expired: bool): (r: Option<(Tx, nat)>)
    requires QueuesOk(tx.tiles, tx.queue, tx.priority, tx.waiting, tx.head)
    ensures r.Some? ==> r.value.1 < |r.value.0.tiles| == |tx.tiles|
  {
    if tx.priority != [] then
      QueuedNamed(tx.tiles, |tx.tiles| - |tx.queue|, tx.priority, tx.waiting, tx.priority[0]);
      Some((TakePriority(tx), Named(tx.tiles, tx.priority[0])))
    else if tx.waiting != [] && expired then
      QueuedNamed(tx.tiles, |tx.tiles| - |tx.queue|, tx.priority, tx.waiting, tx.waiting[0]);
      var i := Named(tx.tiles, tx.waiting[0]);
      Some((TakeWaiting(tx, i), i))
    else if tx.queue == [] then None
    else
      var t := tx.tiles[tx.Sent()];
      if (tx.sendFullSize && t.length < t.maxLength) || !HasSpace(tx, t, window) then None
      else Some((TakeNew(tx), tx.Sent()))
  }

  /** The window after ulTCPWindowTxGet, and the segment that goes out, if any. */
  function TxGet(tx: Tx, window: uint32, expired: bool): (r: (Tx, Option<nat>))
    requires QueuesOk(tx.tiles, tx.queue, tx.priority, tx.waiting, tx.head)
    ensures r.1.Some? ==> r.1.value < |r.0.tiles|
  {
    match Choose(tx.(ourSeq := tx.highest), window, expired)
    case None => (tx.(ourSeq := tx.highest), None)
    case Some((u, i)) => (Transmit(u, i), Some(i))
  }

  lemma QueuedNamed(tiles: seq<Tile>, n: nat, priority: seq<nat>, waiting: seq<nat>, id: nat)
    requires n <= |tiles| && Queued(tiles, n, priority, waiting) && (id in priority || id in waiting)
    ensures exists i :: 0 <= i < |tiles| && tiles[i].id == id
  {}

  // ---- What a retransmission keeps ------------------------------------------------------

  /** A pending segment that moves from one queue to the end of the waiting queue. */
  lemma RequeuedFromPriority(tiles: seq<Tile>, n: nat, priority: seq<nat>, waiting: seq<nat>)
    requires n <= |tiles| && Queued(tiles, n, priority, waiting) && priority != []
    ensures Queued(tiles, n, priority[1..], waiting + [priority[0]])
  {
    var p, w := priority[1..], waiting + [priority[0]];
    assert priority == [priority[0]] + p;
    assert priority[0] !in p;
    NoDupAppend(waiting, [priority[0]]);
    forall id
      ensures id in p ==> id !in w
      ensures id in p || id in w <==> id in priority || id in waiting
    {}
  }

  lemma RequeuedFromWaiting(tiles: seq<Tile>, n: nat, priority: seq<nat>, waiting: seq<nat>)
    requires n <= |tiles| && Queued(tiles, n, priority, waiting) && waiting != []
    ensures Queued(tiles, n, priority, waiting[1..] + [waiting[0]])
  {}

  lemma QueuedSame(tiles: seq<Tile>, t: seq<Tile>, n: nat, priority: seq<nat>, waiting: seq<nat>)
    requires n <= |tiles| && Queued(tiles, n, priority, waiting) && SameShape(tiles, t)
    requires forall i :: 0 <= i < |t| ==> t[i].acked == tiles[i].acked
    ensures Queued(t, n, priority, waiting)
  {}

  /** Segment i goes out again (or for the first time): flags and counters of one sent segment
      change. */
  ghost predicate Touched(tiles: seq<Tile>, t: seq<Tile>, i: nat) {
    && SameShape(tiles, t) && i < |tiles|
    && t[i].outstanding && t[i].acked == tiles[i].acked
    && forall k :: 0 <= k < |tiles| && k != i ==> t[k] == tiles[k]
  }

  lemma TouchedQueues(tiles: seq<Tile>, t: seq<Tile>, i: nat, queue: seq<nat>, priority: seq<nat>, waiting: seq<nat>,
                      head: Option<nat>)
    requires QueuesOk(tiles, queue, priority, waiting, head) && Touched(tiles, t, i) && i < |tiles| - |queue|
    ensures QueuesOk(t, queue, priority, waiting, head)
  {}

  lemma TransmitTouches(tx: Tx, i: nat)
    requires i < |tx.tiles|
    ensures Touched(tx.tiles, Transmit(tx, i).tiles, i)
  {}

  /** A queued name belongs to a sent segment. */
  lemma NamedSent(tiles: seq<Tile>, base: uint32, n: nat, priority: seq<nat>, waiting: seq<nat>, id: nat)
    requires Ordered(tiles, base) && n <= |tiles| && Queued(tiles, n, priority, waiting)
    requires (id in priority || id in waiting)
    ensures exists i :: 0 <= i < |tiles| && tiles[i].id == id
    ensures Named(tiles, id) < n && !tiles[Named(tiles, id)].acked
  {}

  /** Sending a priority segment. */
  lemma GetPriorityOk(tx: Tx, r: Ring, i: nat)
    requires TxOk(tx, r) && tx.priority != [] && i < tx.Sent() && tx.tiles[i].id == tx.priority[0]
    ensures TxOk(Transmit(TakePriority(tx), i), r)
  {
    var u := Transmit(TakePriority(tx), i);
    RequeuedFromPriority(tx.tiles, tx.Sent(), tx.priority, tx.waiting);
    TransmitTouches(TakePriority(tx), i);
    TouchedQueues(tx.tiles, u.tiles, i, tx.queue, u.priority, u.waiting, tx.head);
    EdgesSame(tx.tiles, u.tiles, tx.Sent(), tx.current, tx.next, tx.highest, r);
  }

  lemma WaitingTouches(tx: Tx, i: nat)
    requires tx.waiting != [] && i < |tx.tiles|
    ensures Touched(tx.tiles, Transmit(TakeWaiting(tx, i), i).tiles, i)
  {}

  /** Sending the segment that has waited longest. */
  lemma GetWaitingOk(tx: Tx, r: Ring, i: nat)
    requires TxOk(tx, r) && tx.waiting != [] && i < tx.Sent() && tx.tiles[i].id == tx.waiting[0]
    ensures TxOk(Transmit(TakeWaiting(tx, i), i), r)
  {
    var u := Transmit(TakeWaiting(tx, i), i);
    RequeuedFromWaiting(tx.tiles, tx.Sent(), tx.priority, tx.waiting);
    WaitingTouches(tx, i);
    TouchedQueues(tx.tiles, u.tiles, i, tx.queue, u.priority, u.waiting, tx.head);
    EdgesSame(tx.tiles, u.tiles, tx.Sent(), tx.current, tx.next, tx.highest, r);
  }

  lemma PendingNew(tiles: seq<Tile>, n: nat, id: nat)
    requires n < |tiles| && !tiles[n].acked
    ensures Pending(tiles, n + 1, id) <==> Pending(tiles, n, id) || id == tiles[n].id
  {}

  lemma NewNotPending(tiles: seq<Tile>, base: uint32, n: nat)
    requires Ordered(tiles, base) && n < |tiles|
    ensures !Pending(tiles, n, tiles[n].id)
  {}

  lemma QueuedNew(tiles: seq<Tile>, base: uint32, n: nat, priority: seq<nat>, waiting: seq<nat>)
    requires Ordered(tiles, base) && n < |tiles| && !tiles[n].acked && Queued(tiles, n, priority, waiting)
    ensures Queued(tiles, n + 1, priority, waiting + [tiles[n].id])
  {
    NewNotPending(tiles, base, n);
    NoDupAppend(waiting, [tiles[n].id]);
    var w := waiting + [tiles[n].id];
    forall id
      ensures id in priority ==> id !in w
      ensures id in priority || id in w <==> Pending(tiles, n + 1, id)
    {
      PendingNew(tiles, n, id);
    }
  }

  /** The queue after its head has been sent for the first time. */
  lemma NewQueues(tiles: seq<Tile>, t: seq<Tile>, base: uint32, queue: seq<nat>, priority: seq<nat>, waiting: seq<nat>,
                  head: Option<nat>)
    requires Ordered(tiles, base) && QueuesOk(tiles, queue, priority, waiting, head) && queue != []
    requires Touched(tiles, t, |tiles| - |queue|)
    ensures var i := |tiles| - |queue|;
      QueuesOk(t, queue[1..], priority, waiting + [tiles[i].id], if head == Some(tiles[i].id) then None else head)
  {
    var i := |tiles| - |queue|;
    QueuedNew(tiles, base, i, priority, waiting);
    QueuedSame(tiles, t, i + 1, priority, waiting + [tiles[i].id]);
    SentFirstNew(tiles, t, queue);
  }

  lemma SentFirstNew(tiles: seq<Tile>, t: seq<Tile>, queue: seq<nat>)
    requires SentFirst(tiles, queue) && queue != [] && Touched(tiles, t, |tiles| - |queue|)
    ensures SentFirst(t, queue[1..])
  {}

  /** Sending the next new segment. */
  lemma GetNewOk(tx: Tx, r: Ring)
    requires TxOk(tx, r) && tx.queue != []
    ensures TxOk(Transmit(TakeNew(tx), tx.Sent()), r)
  {
    var i := tx.Sent();
    var u := Transmit(TakeNew(tx), i);
    TransmitTouches(TakeNew(tx), i);
    NewQueues(tx.tiles, u.tiles, tx.current, tx.queue, tx.priority, tx.waiting, tx.head);
    NewHighest(tx.tiles, tx.current, r, i);
    EdgesSame(tx.tiles, u.tiles, i + 1, tx.current, tx.next, u.highest, r);
  }

  lemma NewHighest(tiles: seq<Tile>, base: uint32, r: Ring, i: nat)
    requires Tiling(tiles, base, r) && i < |tiles|
    ensures Highest(tiles, base, i + 1, Add(tiles[i].seqNo, tiles[i].length))
  {}

  /** Whatever is sent, the structure is kept. */
  lemma TxGetOk(tx: Tx, r: Ring, window: uint32, expired: bool) returns (u: Tx)
    requires TxOk(tx, r)
    ensures u == TxGet(tx, window, expired).0
    ensures TxOk(u, r)
  {
    hide InPlace, Ordered, Queued, SentFirst;
    var v := tx.(ourSeq := tx.highest);
    u := v;
    if tx.priority != [] {
      NamedSent(tx.tiles, tx.current, tx.Sent(), tx.priority, tx.waiting, tx.priority[0]);
      var i := Named(tx.tiles, tx.priority[0]);
      GetPriorityOk(v, r, i);
      u := Transmit(TakePriority(v), i);
    } else if tx.waiting != [] && expired {
      NamedSent(tx.tiles, tx.current, tx.Sent(), tx.priority, tx.waiting, tx.waiting[0]);
      var i := Named(tx.tiles, tx.waiting[0]);
      GetWaitingOk(v, r, i);
      u := Transmit(TakeWaiting(v, i), i);
    } else if TxGet(tx, window, expired).1.Some? {
      GetNewOk(v, r);
      u := Transmit(TakeNew(v), v.Sent());
    }
  }

  /** What goes out is one of the window's segments, under its own sequence number, and its bytes
      are in the stream at the position handed to the caller. */
  lemma TxGetSends(tx: Tx, r: Ring, window: uint32, expired: bool)
    requires TxOk(tx, r) && TxGet(tx, window, expired).1.Some?
    ensures var (u, m) := TxGet(tx, window, expired);
      && m.value < |tx.tiles|
      && var t := tx.tiles[m.value];
         && u.ourSeq == t.seqNo && u.tiles[m.value].length == t.length
         && u.tiles[m.value].streamPos == t.streamPos == Advance(r.tail, Rel(t, tx.current), |r.view|)
         && 0 < t.length && RelEnd(t, tx.current) <= r.mid
         && u.tiles[m.value].outstanding
  {
    var v := tx.(ourSeq := tx.highest);
    var m := TxGet(tx, window, expired).1.value;
    if tx.priority != [] {
      NamedSent(tx.tiles, tx.current, tx.Sent(), tx.priority, tx.waiting, tx.priority[0]);
    } else if tx.waiting != [] && expired {
      NamedSent(tx.tiles, tx.current, tx.Sent(), tx.priority, tx.waiting, tx.waiting[0]);
    }
    assert 0 < tx.tiles[m].length;
  }

  // ---- Flow control ---------------------------------------------------------------------

  /** The bytes that have been sent and not acknowledged at the left edge. */
  function InFlight(tx: Tx): uint32
    requires |tx.queue| <= |tx.tiles|
  {
    Edge(tx.tiles, tx.current, tx.Sent())
  }

  /** The plain comparison of 32-bit numbers counts the bytes in flight correctly exactly when
      they do not straddle the end of the number space (and, before anything has been sent, when
      the left edge is not number 0). */
  lemma OutstandingExact(tx: Tx, r: Ring)
    requires TxOk(tx, r)
    ensures Outstanding(tx) == InFlight(tx)
       <==> (if tx.highest == Sub(tx.current, 1) then tx.current != 0 else tx.highest >= tx.current)
  {}

  /** A segment that goes out for the first time is the next new one, and it has space. */
  lemma FirstIsNew(tx: Tx, r: Ring, window: uint32, expired: bool)
    requires TxOk(tx, r)
    requires var m := TxGet(tx, window, expired).1; m.Some? && m.value < |tx.tiles| && !tx.tiles[m.value].outstanding
    ensures tx.queue != [] && HasSpace(tx, tx.tiles[tx.Sent()], window)
    ensures TxGet(tx, window, expired) == (Transmit(TakeNew(tx.(ourSeq := tx.highest)), tx.Sent()), Some(tx.Sent()))
  {
    if tx.priority != [] {
      NamedSent(tx.tiles, tx.current, tx.Sent(), tx.priority, tx.waiting, tx.priority[0]);
    } else if tx.waiting != [] && expired {
      NamedSent(tx.tiles, tx.current, tx.Sent(), tx.priority, tx.waiting, tx.waiting[0]);
    }
  }

  /** The bytes in flight straddle the end of the number space. */
  predicate Straddles(tx: Tx) {
    tx.highest < tx.current && tx.highest != Sub(tx.current, 1)
  }

  /** Flow control: a first transmission leaves no more in flight than the peer's window, and no
      more than the window's own limit unless nothing was in flight; but once the bytes in flight
      straddle the end of the number space, only the new segment by itself fits the peer's window. */
  lemma FlowControl(tx: Tx, r: Ring, window: uint32, expired: bool)
    requires TxOk(tx, r)
    requires var m := TxGet(tx, window, expired).1; m.Some? && m.value < |tx.tiles| && !tx.tiles[m.value].outstanding
    ensures var u := TxGet(tx, window, expired).0;
      && |u.queue| < |tx.queue| <= |u.tiles|
      && InFlight(u) == InFlight(tx) + tx.tiles[tx.Sent()].length
      && if Straddles(tx) then tx.tiles[tx.Sent()].length <= window
         else InFlight(u) <= window && (InFlight(tx) == 0 || InFlight(u) <= tx.windowLength)
  {
    hide TxGet, TxOk, Transmit, TakeNew, InFlight;
    FirstIsNew(tx, r, window, expired);
    NewInFlight(tx, r);
    OutstandingExact(tx, r);
  }

  lemma NewInFlight(tx: Tx, r: Ring)
    requires TxOk(tx, r) && tx.queue != []
    ensures tx.Sent() < |tx.tiles| && 0 < tx.tiles[tx.Sent()].length
    ensures var u := Transmit(TakeNew(tx.(ourSeq := tx.highest)), tx.Sent());
      && |u.queue| < |tx.queue| <= |u.tiles| == |tx.tiles| && InFlight(u) == InFlight(tx) + tx.tiles[tx.Sent()].length
  {
    hide InPlace, Ordered, Queued, Highest;
    var i := tx.Sent();
    var u := Transmit(TakeNew(tx.(ourSeq := tx.highest)), i);
    InFlightNew(tx.tiles, u.tiles, tx.current, r, i);
  }

  lemma InFlightNew(tiles: seq<Tile>, t: seq<Tile>, base: uint32, r: Ring, i: nat)
    requires Tiling(tiles, base, r) && i < |tiles| && Touched(tiles, t, i)
    ensures Edge(t, base, i + 1) == Edge(tiles, base, i) + tiles[i].length && 0 < tiles[i].length
  {
    EdgeAt(tiles, base, r, i);
    EdgeAt(tiles, base, r, i + 1);
    BoundarySame(tiles, t, base, i + 1);
  }

  /** Once the bytes in flight straddle the end of the number space they are not counted at all:
      the next segment goes out whenever it fits the peer's window by itself. */
  lemma WrapIgnoresFlight(tx: Tx, r: Ring, t: Tile, window: uint32)
    requires TxOk(tx, r) && tx.highest < tx.current
    ensures HasSpace(tx, t, window) <==> t.length <= window
  {}

  /** If nothing has been sent and the left edge is number 0, nothing ever fits. */
  lemma StuckAtZero(tx: Tx, t: Tile, window: uint32)
    requires tx.current == 0 && tx.highest == Sub(tx.current, 1) && 0 < t.length
    ensures !HasSpace(tx, t, window)
  {}

  /** Whether a segment of the given length may go out for the first time: within both windows, unless
      the bytes in flight straddle the end of the number space or the connection starts at number 0. */
  predicate Room(tx: Tx, length: nat, window: uint32)
    requires |tx.queue| <= |tx.tiles|
  {
    if Straddles(tx) then length <= window
    else
      && !(tx.current == 0 && tx.highest == Sub(tx.current, 1))
      && InFlight(tx) + length <= window && (InFlight(tx) == 0 || InFlight(tx) + length <= tx.windowLength)
  }

  /** A new segment has space exactly if it fits both windows together with what is in flight. */
  lemma SpaceExact(tx: Tx, r: Ring, window: uint32)
    requires TxOk(tx, r) && tx.queue != []
    ensures |tx.queue| <= |tx.tiles|
    ensures HasSpace(tx, tx.tiles[tx.Sent()], window) <==> Room(tx, tx.tiles[tx.Sent()].length, window)
  {
    hide QueuesOk, InPlace, Ordered, Highest, Straddles, Sub, InFlight;
    RelBound(tx.tiles, tx.current, r, tx.Sent());
    OutstandingExact(tx, r);
    PlainCount(tx);
  }

  lemma PlainCount(tx: Tx)
    ensures Straddles(tx) ==> Outstanding(tx) == 0
    ensures !Straddles(tx) && !(tx.current == 0 && tx.highest == Sub(tx.current, 1)) <==>
      (if tx.highest == Sub(tx.current, 1) then tx.current != 0 else tx.highest >= tx.current)
    ensures tx.current == 0 && tx.highest == Sub(tx.current, 1) ==> Outstanding(tx) == TWO32 - 1
  {}

  /** Exactly what goes out: the first of the priority queue; else, after a timeout, the first of the
      waiting queue; else the first new segment, if there is room for it and, where whole segments are
      insisted on, it is full. What goes out is the last to wait for its acknowledgement from then on. */
  lemma GetExact(tx: Tx, r: Ring, window: uint32, expired: bool)
    requires TxOk(tx, r)
    ensures |tx.queue| <= |tx.tiles|
    ensures var (u, m) := TxGet(tx, window, expired); var i := tx.Sent();
      && (m.Some? ==> m.value < |tx.tiles| && m.value < |u.tiles|)
      && if tx.priority != [] then
           && m.Some? && tx.tiles[m.value].id == tx.priority[0]
           && u.priority == tx.priority[1..] && u.waiting == tx.waiting + [tx.priority[0]] && u.queue == tx.queue
         else if tx.waiting != [] && expired then
           && m.Some? && tx.tiles[m.value].id == tx.waiting[0] && u.tiles[m.value].dupAckCount == 0
           && u.priority == [] && u.waiting == tx.waiting[1..] + [tx.waiting[0]] && u.queue == tx.queue
         else if tx.queue == [] || (tx.sendFullSize && tx.tiles[i].length < tx.tiles[i].maxLength)
                 || !Room(tx, tx.tiles[i].length, window) then
           m == None && u == tx.(ourSeq := tx.highest)
         else
           && m == Some(i) && u.priority == [] && u.queue == tx.queue[1..] && u.waiting == tx.waiting + [tx.tiles[i].id]
  {
    hide InPlace, Ordered, Queued, Highest, SentFirst, HasSpace, Room;
    var v := tx.(ourSeq := tx.highest);
    if tx.priority != [] {
      QueuedNamed(tx.tiles, tx.Sent(), tx.priority, tx.waiting, tx.priority[0]);
    } else if tx.waiting != [] && expired {
      QueuedNamed(tx.tiles, tx.Sent(), tx.priority, tx.waiting, tx.waiting[0]);
    } else if tx.queue != [] {
      SpaceExact(tx, r, window);
      SameSpace(tx, v, tx.tiles[tx.Sent()], window);
    }
  }

  lemma SameSpace(tx: Tx, v: Tx, t: Tile, window: uint32)
    requires v == tx.(ourSeq := v.ourSeq)
    ensures HasSpace(v, t, window) <==> HasSpace(tx, t, window)
  {}

  // ---- How often ------------------------------------------------------------------------

  /** What a transmission changes in the segment that goes out, and in the window's own limit: with the
      fourth transmission the limit is two segments at most, and else it stays. */
  lemma TransmissionCounted(tx: Tx, r: Ring, window: uint32, expired: bool)
    requires TxOk(tx, r) && TxGet(tx, window, expired).1.Some?
    ensures var (u, m) := TxGet(tx, window, expired);
      && m.value < |tx.tiles| == |u.tiles|
      && u.tiles[m.value].transmitCount == (tx.tiles[m.value].transmitCount + 1) % 256
      && u.windowLength == (if u.tiles[m.value].transmitCount == 4 then Min(tx.windowLength, 2 * tx.mss)
                            else tx.windowLength)
      && forall k :: 0 <= k < |tx.tiles| && k != m.value ==> u.tiles[k] == tx.tiles[k]
  {
    hide InPlace, Ordered, Highest, HasSpace;
    if tx.priority != [] {
      QueuedNamed(tx.tiles, tx.Sent(), tx.priority, tx.waiting, tx.priority[0]);
    } else if tx.waiting != [] && expired {
      QueuedNamed(tx.tiles, tx.Sent(), tx.priority, tx.waiting, tx.waiting[0]);
    }
  }

  // ---- Adding data ----------------------------------------------------------------------

  /** The segments with k more bytes in the last one. */
  function LongerLast(tiles: seq<Tile>, k: uint32): (r: seq<Tile>)
    requires tiles != [] && tiles[|tiles| - 1].length + k < TWO32
  {
    tiles[|tiles| - 1 := tiles[|tiles| - 1].(length := tiles[|tiles| - 1].length + k)]
  }

  /** The growing segment takes up to n more bytes. A descriptor that has been freed meanwhile is empty
      and takes none. */
  function Fill(tx: Tx, n: uint32): (r: (Tx, uint32))
    ensures r.1 <= n && r.0.mss == tx.mss
  {
    if tx.head.None? || tx.tiles == [] || tx.tiles[|tx.tiles| - 1].id != tx.head.value then (tx, 0)
    else
      var t := tx.tiles[|tx.tiles| - 1];
      if t.length < t.maxLength && !t.outstanding && t.length != 0 then
        var k := Min(n, t.maxLength - t.length);
        (tx.(tiles := LongerLast(tx.tiles, k),
             head := if t.length + k >= t.maxLength then None else tx.head,
             next := Add(tx.next, k)), k)
      else (tx, 0)
  }

  /** A new segment for k bytes at the given stream position. */
  function Append(tx: Tx, id: nat, k: uint32, position: nat): Tx {
    tx.(tiles := tx.tiles + [Tile(id, tx.next, tx.mss, k, position, 0, 0, false, false)],
        queue := tx.queue + [id],
        head := if k < tx.mss then Some(id) else None,
        next := Add(tx.next, k))
  }

  /** New segments for up to left bytes, as long as there are free descriptors; the third
      component is how many bytes found a place. */
  function Grow(tx: Tx, left: uint32, position: nat, length: nat, free: seq<nat>): (r: (Tx, seq<nat>, uint32))
    requires 0 < tx.mss && position < length && left <= length
    ensures r.2 <= left && (r.2 < left ==> r.1 == [])
    decreases left
  {
    if left == 0 || free == [] then (tx, free, 0)
    else
      var k := Min(left, tx.mss);
      var r := Grow(Append(tx, free[0], k, position), left - k, Advance(position, k, length), length, free[1..]);
      (r.0, r.1, k + r.2)
  }

  /** lTCPWindowTxAdd for n bytes of a stream of the given length, from position on. */
  function TxAdd(tx: Tx, n: uint32, position: nat, length: nat, free: seq<nat>): (r: (Tx, seq<nat>, uint32))
    requires 0 < tx.mss && position < length && n <= length
    ensures r.2 <= n && (r.2 < n ==> r.1 == [])
  {
    var (u, k) := Fill(tx, n);
    var r := Grow(u, n - k, Advance(position, k, length), length, free);
    (r.0, r.1, k + r.2)
  }

  lemma OrderedAppend(tiles: seq<Tile>, base: uint32, r: Ring, t: Tile)
    requires Tiling(tiles, base, r) && Rel(t, base) == r.mid
    requires forall i :: 0 <= i < |tiles| ==> tiles[i].id != t.id
    ensures Ordered(tiles + [t], base)
  {}

  lemma BoundaryAppend(tiles: seq<Tile>, base: uint32, r: Ring, t: Tile, n: nat)
    requires Tiling(tiles, base, r) && t.seqNo == Add(base, r.mid) && n <= |tiles|
    ensures Boundary(tiles + [t], base, n) == Boundary(tiles, base, n)
    ensures Boundary(tiles + [t], base, |tiles| + 1) == Add(t.seqNo, t.length)
  {}

  lemma TilingAppend(tiles: seq<Tile>, base: uint32, r: Ring, t: Tile)
    requires Tiling(tiles, base, r) && t.seqNo == Add(base, r.mid)
    requires 0 < t.length <= t.maxLength && t.length <= r.size - r.mid
    requires t.streamPos == Advance(r.tail, r.mid, |r.view|)
    requires forall i :: 0 <= i < |tiles| ==> tiles[i].id != t.id
    ensures Tiling(tiles + [t], base, r.MoveMid(t.length))
  {
    var s, q := tiles + [t], r.MoveMid(t.length);
    assert Rel(t, base) == r.mid;
    OrderedAppend(tiles, base, r, t);
    BoundaryAppend(tiles, base, r, t, 0);
    assert InPlace(s, base, q) by {
      forall i | 0 <= i < |s| ensures RelEnd(s[i], base) <= q.mid {
        if i < |tiles| {
          RelBound(tiles, base, r, i);
        }
      }
    }
    assert Sub(Add(t.seqNo, t.length), base) == q.mid;
  }

  lemma QueuedPrefix(tiles: seq<Tile>, t: seq<Tile>, n: nat, priority: seq<nat>, waiting: seq<nat>)
    requires n <= |tiles| && n <= |t| && Queued(tiles, n, priority, waiting)
    requires forall i :: 0 <= i < n ==> t[i] == tiles[i]
    ensures Queued(t, n, priority, waiting)
  {}

  lemma QueuesAppend(tiles: seq<Tile>, queue: seq<nat>, priority: seq<nat>, waiting: seq<nat>, head: Option<nat>,
                     t: Tile)
    requires QueuesOk(tiles, queue, priority, waiting, head) && !t.outstanding && !t.acked
    ensures QueuesOk(tiles + [t], queue + [t.id], priority, waiting,
                     if t.length < t.maxLength then Some(t.id) else None)
  {
    QueuedPrefix(tiles, tiles + [t], |tiles| - |queue|, priority, waiting);
    var s, q := tiles + [t], queue + [t.id];
    forall i | |s| - |q| <= i < |s|
      ensures !s[i].outstanding && !s[i].acked && q[i - (|s| - |q|)] == s[i].id
    {
      if i < |tiles| {
        assert queue[i - (|tiles| - |queue|)] == tiles[i].id;
      }
    }
  }

  /** Putting k new bytes into a new segment keeps the structure; mid follows. */
  lemma AppendOk(tx: Tx, r: Ring, id: nat, k: uint32, position: nat)
    requires TxOk(tx, r) && 0 < k <= tx.mss && k <= r.size - r.mid
    requires position == Advance(r.tail, r.mid, |r.view|)
    requires forall i :: 0 <= i < |tx.tiles| ==> tx.tiles[i].id != id
    ensures TxOk(Append(tx, id, k, position), r.MoveMid(k))
  {
    var t := Tile(id, tx.next, tx.mss, k, position, 0, 0, false, false);
    TilingAppend(tx.tiles, tx.current, r, t);
    QueuesAppend(tx.tiles, tx.queue, tx.priority, tx.waiting, tx.head, t);
    BoundaryAppend(tx.tiles, tx.current, r, t, tx.Sent());
  }

  // The growing segment.

  lemma BoundaryFill(tiles: seq<Tile>, base: uint32, k: uint32, n: nat)
    requires tiles != [] && n <= |tiles| && tiles[|tiles| - 1].length + k < TWO32
    ensures n < |tiles| ==> Boundary(LongerLast(tiles, k), base, n) == Boundary(tiles, base, n)
    ensures n == |tiles| ==> Boundary(LongerLast(tiles, k), base, n) == Add(tiles[n - 1].seqNo, tiles[n - 1].length + k)
  {}

  lemma OrderedFill(tiles: seq<Tile>, base: uint32, k: uint32)
    requires Ordered(tiles, base) && tiles != [] && tiles[|tiles| - 1].length + k < TWO32
    ensures Ordered(LongerLast(tiles, k), base)
  {}

  lemma InPlaceFill(tiles: seq<Tile>, base: uint32, r: Ring, k: uint32)
    requires Tiling(tiles, base, r) && tiles != []
    requires tiles[|tiles| - 1].length + k <= tiles[|tiles| - 1].maxLength && k <= r.size - r.mid
    ensures InPlace(LongerLast(tiles, k), base, r.MoveMid(k))
  {}

  lemma TilingFill(tiles: seq<Tile>, base: uint32, r: Ring, k: uint32)
    requires Tiling(tiles, base, r) && tiles != []
    requires tiles[|tiles| - 1].length + k <= tiles[|tiles| - 1].maxLength && k <= r.size - r.mid
    ensures Tiling(LongerLast(tiles, k), base, r.MoveMid(k))
  {
    hide Sub, Add, InPlace, Ordered;
    var l := |tiles| - 1;
    EdgeAt(tiles, base, r, |tiles|);
    RelBound(tiles, base, r, l);
    OrderedFill(tiles, base, k);
    BoundaryFill(tiles, base, k, 0);
    BoundaryFill(tiles, base, k, |tiles|);
    InPlaceFill(tiles, base, r, k);
    AddSub(tiles[l].seqNo, base, tiles[l].length + k, r.mid + k);
  }

  lemma AddSub(a: uint32, base: uint32, n: uint32, m: uint32)
    requires Sub(a, base) + n == m
    ensures Sub(Add(a, n), base) == m
  {}

  lemma EdgesFill(tiles: seq<Tile>, sent: nat, current: uint32, next: uint32, highest: uint32, r: Ring, k: uint32)
    requires EdgesOk(tiles, sent, current, next, highest, r) && sent < |tiles|
    requires tiles[|tiles| - 1].length + k <= tiles[|tiles| - 1].maxLength && k <= r.size - r.mid
    ensures EdgesOk(LongerLast(tiles, k), sent, current, Add(next, k), highest, r.MoveMid(k))
  {
    TilingFill(tiles, current, r, k);
    BoundaryFill(tiles, current, k, sent);
    assert Add(Add(current, r.mid), k) == Add(current, r.mid + k);
  }

  lemma QueuesFill(tiles: seq<Tile>, queue: seq<nat>, priority: seq<nat>, waiting: seq<nat>, head: Option<nat>,
                   k: uint32)
    requires QueuesOk(tiles, queue, priority, waiting, head) && head.Some?
    requires tiles[|tiles| - 1].length + k <= tiles[|tiles| - 1].maxLength
    ensures var t := tiles[|tiles| - 1];
      QueuesOk(LongerLast(tiles, k), queue, priority, waiting, if t.length + k >= t.maxLength then None else head)
  {
    QueuedPrefix(tiles, LongerLast(tiles, k), |tiles| - |queue|, priority, waiting);
  }

  lemma FillGrows(tx: Tx, r: Ring, n: uint32)
    requires TxOk(tx, r) && tx.head.Some?
    ensures tx.tiles != [] && tx.Sent() < |tx.tiles|
    ensures var t := tx.tiles[|tx.tiles| - 1];
      t.length < t.maxLength && Fill(tx, n) ==
        (var k := Min(n, t.maxLength - t.length);
         (tx.(tiles := LongerLast(tx.tiles, k),
              head := if t.length + k >= t.maxLength then None else tx.head,
              next := Add(tx.next, k)), k))
  {
    RelBound(tx.tiles, tx.current, r, |tx.tiles| - 1);
    assert !tx.tiles[|tx.tiles| - 1].outstanding;
  }

  lemma MidMoves(r: Ring, k: nat)
    requires r.Ok() && r.mid <= r.size && k <= r.size - r.mid
    ensures var q := r.MoveMid(k);
      q.Ok() && q.mid == r.mid + k && q.size == r.size && q.tail == r.tail && q.view == r.view
    ensures r.MoveMid(0) == r
  {}

  lemma MidMovesTwice(r: Ring, m: nat, k: nat)
    requires r.Ok() && r.mid <= r.size && m + k <= r.size - r.mid
    ensures r.MoveMid(m).MoveMid(k) == r.MoveMid(m + k) && r.MoveMid(m + k).mid == r.mid + m + k
  {}

  /** Filling up the growing segment keeps the structure; mid follows. */
  lemma FillOk(tx: Tx, r: Ring, n: uint32) returns (u: Tx, q: Ring, k: uint32)
    requires TxOk(tx, r) && n <= r.size - r.mid
    ensures (u, k) == Fill(tx, n) && q == r.MoveMid(k) && q.mid == r.mid + k
    ensures TxOk(u, q)
    ensures |u.tiles| == |tx.tiles| && u.current == tx.current
    ensures forall i :: 0 <= i < |tx.tiles| ==> u.tiles[i].id == tx.tiles[i].id
  {
    hide InPlace, Ordered, Queued, SentFirst;
    if tx.head.Some? {
      FillGrows(tx, r, n);
      var f := Fill(tx, n);
      u, k := f.0, f.1;
      q := r.MoveMid(k);
      EdgesFill(tx.tiles, tx.Sent(), tx.current, tx.next, tx.highest, r, k);
      QueuesFill(tx.tiles, tx.queue, tx.priority, tx.waiting, tx.head, k);
    } else {
      MidMoves(r, 0);
      u, q, k := tx, r, 0;
    }
  }

  /** New segments take descriptors from the front of the free list, in order. */
  ghost predicate Taken(before: seq<Tile>, after: seq<Tile>, free: seq<nat>, left: seq<nat>) {
    && |before| <= |after|
    && |free| == |after| - |before| + |left|
    && (forall i :: 0 <= i < |before| ==> after[i].id == before[i].id)
    && (forall i :: |before| <= i < |after| ==> after[i].id == free[i - |before|])
    && left == free[|after| - |before|..]
  }

  /** Descriptors offered to a window are distinct and none of its own. */
  ghost predicate Offered(tiles: seq<Tile>, free: seq<nat>) {
    NoDup(free) && forall i :: 0 <= i < |tiles| ==> tiles[i].id !in free
  }

  lemma AppendMoves(tx: Tx, id: nat, k: uint32, position: nat)
    ensures Append(tx, id, k, position).current == tx.current && Append(tx, id, k, position).mss == tx.mss
  {}

  lemma AppendOffered(tx: Tx, free: seq<nat>, k: uint32, position: nat)
    requires free != [] && Offered(tx.tiles, free)
    ensures forall i :: 0 <= i < |tx.tiles| ==> tx.tiles[i].id != free[0]
    ensures Offered(Append(tx, free[0], k, position).tiles, free[1..])
  {}

  lemma AppendTaken(tx: Tx, free: seq<nat>, k: uint32, position: nat, after: seq<Tile>, left: seq<nat>)
    requires free != []
    ensures Taken(Append(tx, free[0], k, position).tiles, after, free[1..], left) ==> Taken(tx.tiles, after, free, left)
  {}

  lemma TakenNone(tiles: seq<Tile>, free: seq<nat>)
    ensures Taken(tiles, tiles, free, free)
  {}

  lemma GrowOnce(tx: Tx, left: uint32, position: nat, length: nat, free: seq<nat>)
    requires 0 < tx.mss && position < length && left <= length && left != 0 && free != []
    ensures var k := Min(left, tx.mss);
      var g := Grow(Append(tx, free[0], k, position), left - k, Advance(position, k, length), length, free[1..]);
      Grow(tx, left, position, length, free) == (g.0, g.1, k + g.2)
  {}

  lemma GrowNone(tx: Tx, left: uint32, position: nat, length: nat, free: seq<nat>)
    requires 0 < tx.mss && position < length && left <= length && (left == 0 || free == [])
    ensures Grow(tx, left, position, length, free) == (tx, free, 0)
  {}

  lemma {:induction false} GrowOk(tx: Tx, r: Ring, left: uint32, position: nat, free: seq<nat>)
    returns (u: Tx, q: Ring, rest: seq<nat>, k: uint32)
    requires TxOk(tx, r) && left <= r.size - r.mid && position == Advance(r.tail, r.mid, |r.view|)
    requires Offered(tx.tiles, free)
    ensures (u, rest, k) == Grow(tx, left, position, |r.view|, free)
    ensures q == r.MoveMid(k) && q.mid == r.mid + k
    ensures TxOk(u, q)
    ensures Taken(tx.tiles, u.tiles, free, rest) && u.current == tx.current
    decreases left
  {
    hide QueuesOk, InPlace, Ordered, Edge, Highest, Grow, Append, Taken, Offered;
    if left != 0 && free != [] {
      var m := Min(left, tx.mss);
      var v, p := Append(tx, free[0], m, position), r.MoveMid(m);
      AppendOffered(tx, free, m, position);
      AppendOk(tx, r, free[0], m, position);
      AppendMoves(tx, free[0], m, position);
      MidMoves(r, m);
      Placed(r.tail, r.mid, m, |r.view|);
      GrowOnce(tx, left, position, |r.view|, free);
      var g := Grow(v, left - m, Advance(position, m, |r.view|), |r.view|, free[1..]);
      u, q, rest, k := GrowOk(v, p, left - m, Advance(position, m, |r.view|), free[1..]);
      AppendTaken(tx, free, m, position, u.tiles, rest);
      assert (u, rest, k) == g;
      MidMovesTwice(r, m, k);
      k := m + k;
    } else {
      GrowNone(tx, left, position, |r.view|, free);
      TakenNone(tx.tiles, free);
      MidMoves(r, 0);
      u, q, rest, k := tx, r, free, 0;
    }
  }

  lemma TakenAfterFill(tiles: seq<Tile>, filled: seq<Tile>, after: seq<Tile>, free: seq<nat>, left: seq<nat>)
    requires |filled| == |tiles| && forall i :: 0 <= i < |tiles| ==> filled[i].id == tiles[i].id
    ensures Offered(tiles, free) ==> Offered(filled, free)
    ensures Taken(filled, after, free, left) ==> Taken(tiles, after, free, left)
  {}

  lemma RingFits(tx: Tx, r: Ring)
    requires TxOk(tx, r)
    ensures 0 < tx.mss && r.Ok() && r.mid <= r.size && |r.view| <= TWO31
  {}

  lemma AddIs(tx: Tx, n: uint32, position: nat, length: nat, free: seq<nat>)
    requires 0 < tx.mss && position < length && n <= length
    ensures var (u, k) := Fill(tx, n); var g := Grow(u, n - k, Advance(position, k, length), length, free);
      TxAdd(tx, n, position, length, free) == (g.0, g.1, k + g.2)
  {}

  /** Handing n more bytes of the stream to the window keeps the structure; mid moves by what
      found a place, which is everything unless the descriptors ran out. */
  lemma TxAddOk(tx: Tx, r: Ring, n: uint32, free: seq<nat>) returns (u: Tx, q: Ring, rest: seq<nat>, k: uint32)
    requires TxOk(tx, r) && n <= r.size - r.mid && Offered(tx.tiles, free)
    ensures (u, rest, k) == TxAdd(tx, n, Advance(r.tail, r.mid, |r.view|), |r.view|, free)
    ensures q == r.MoveMid(k) && q.mid == r.mid + k && k <= n && (k < n ==> rest == [])
    ensures TxOk(u, q)
    ensures Taken(tx.tiles, u.tiles, free, rest) && u.current == tx.current
  {
    hide TxOk, Taken, Offered, Grow, TxAdd, Fill;
    RingFits(tx, r);
    var position := Advance(r.tail, r.mid, |r.view|);
    AddIs(tx, n, position, |r.view|, free);
    var v, p, m := FillOk(tx, r, n);
    MidMoves(r, m);
    Placed(r.tail, r.mid, m, |r.view|);
    TakenAfterFill(tx.tiles, v.tiles, v.tiles, free, free);
    u, q, rest, k := GrowOk(v, p, n - m, Advance(position, m, |r.view|), free);
    TakenAfterFill(tx.tiles, v.tiles, u.tiles, free, rest);
    MidMovesTwice(r, m, k);
    k := m + k;
  }
}
