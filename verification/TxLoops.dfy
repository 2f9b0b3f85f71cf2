/** The two loops of FreeRTOS_TCP_WIN.c that walk a list of segments while taking items out of it,
    step by step, and that they compute what TxWindow says about them. */
module TxLoops {
  import opened Common
  import opened Seq32
  import opened StreamBuffers
  import opened TxWindow

  // ---- prvTCPWindowTxCheckAck -----------------------------------------------------------

  /** The segment is not to be acknowledged: the walk stops here. */
  predicate Stops(t: Tile, seqNo: uint32, last: uint32) {
    seqNo != t.seqNo || (!t.acked && Greater(Add(t.seqNo, t.length), last))
  }

  /** Segment i leaves the window at its left edge. */
  function FreeAt(tx: Tx, i: nat): Tx
    requires i < |tx.tiles|
  {
    var t := tx.tiles[i];
    tx.(tiles := tx.tiles[..i] + tx.tiles[i + 1..],
        priority := Without(tx.priority, t.id),
        queue := Without(tx.queue, t.id),
        waiting := Without(tx.waiting, t.id),
        current := Add(tx.current, t.length))
  }

  /** Segment i is marked, and leaves its queue if it was not marked before. */
  function MarkAt(tx: Tx, i: nat): Tx
    requires i < |tx.tiles|
  {
    var t := tx.tiles[i];
    if t.acked then tx
    else tx.(tiles := tx.tiles[i := t.(acked := true)],
             priority := Without(tx.priority, t.id),
             queue := Without(tx.queue, t.id),
             waiting := Without(tx.waiting, t.id))
  }

  /** The walk from segment i on, at sequence number seqNo, with count bytes confirmed so far. */
  function AckLoop(tx: Tx, i: nat, seqNo: uint32, count: nat, last: uint32): (Tx, nat)
    requires i <= |tx.tiles|
    decreases |tx.tiles| - i
  {
    if i == |tx.tiles| || !Less(seqNo, last) then (tx, count)
    else
      var t := tx.tiles[i];
      if Greater(seqNo, t.seqNo) then AckLoop(tx, i + 1, seqNo, count, last)
      else if Stops(t, seqNo, last) then (tx, count)
      else if seqNo == tx.current then AckLoop(FreeAt(tx, i), i, Add(seqNo, t.length), count + t.length, last)
      else AckLoop(MarkAt(tx, i), i + 1, Add(seqNo, t.length), count, last)
  }

  /** Walking over the segments in front of the block. */
  lemma {:induction false} SkipLoop(tx: Tx, i: nat, first: uint32, last: uint32)
    requires i <= |tx.tiles| && Less(first, last)
    ensures AckLoop(tx, i, first, 0, last) == AckLoop(tx, SkipTo(tx.tiles, i, first), first, 0, last)
    decreases |tx.tiles| - i
  {
    if i < |tx.tiles| && Greater(first, tx.tiles[i].seqNo) {
      SkipLoop(tx, i + 1, first, last);
    }
  }

  lemma EdgeNext(tiles: seq<Tile>, base: uint32, r: Ring, n: nat)
    requires Tiling(tiles, base, r) && n < |tiles|
    ensures Boundary(tiles, base, n) == tiles[n].seqNo
    ensures Boundary(tiles, base, n + 1) == Add(tiles[n].seqNo, tiles[n].length)
    ensures Edge(tiles, base, n + 1) == Edge(tiles, base, n) + tiles[n].length
  {}

  /** One more segment at the left edge. */
  lemma AcknowledgeNext(tx: Tx, n: nat)
    requires n < |tx.tiles| && Boundary(tx.tiles, tx.current, n + 1) == Add(tx.tiles[n].seqNo, tx.tiles[n].length)
    requires Boundary(tx.tiles, tx.current, n) == tx.tiles[n].seqNo
    ensures Acknowledge(tx, 0, n).tiles == tx.tiles[n..] && Acknowledge(tx, 0, n).current == tx.tiles[n].seqNo
    ensures FreeAt(Acknowledge(tx, 0, n), 0) == Acknowledge(tx, 0, n + 1)
  {}

  /** One round of the walk at the left edge. */
  lemma LeftRound(tx: Tx, count: nat, last: uint32)
    requires tx.tiles != [] && tx.tiles[0].seqNo == tx.current
    ensures var t := tx.tiles[0];
      AckLoop(tx, 0, tx.current, count, last)
      == if Takes(t, last) then AckLoop(FreeAt(tx, 0), 0, Add(tx.current, t.length), count + t.length, last)
         else (tx, count)
  {}

  /** The walk at the left edge once n segments are gone. */
  function LeftWalk(tx: Tx, n: nat, last: uint32): (Tx, nat)
    requires n <= |tx.tiles|
  {
    AckLoop(Acknowledge(tx, 0, n), 0, Boundary(tx.tiles, tx.current, n), Edge(tx.tiles, tx.current, n), last)
  }

  lemma LeftWalkEnds(tx: Tx, last: uint32)
    ensures LeftWalk(tx, |tx.tiles|, last) == (Acknowledge(tx, 0, |tx.tiles|), Edge(tx.tiles, tx.current, |tx.tiles|))
  {}

  lemma LeftWalkRound(tx: Tx, r: Ring, n: nat, last: uint32)
    requires Tiling(tx.tiles, tx.current, r) && n < |tx.tiles|
    ensures LeftWalk(tx, n, last)
      == if Takes(tx.tiles[n], last) then LeftWalk(tx, n + 1, last)
         else (Acknowledge(tx, 0, n), Edge(tx.tiles, tx.current, n))
  {
    hide Takes, AckLoop, FreeAt, Tiling, Boundary, Edge, Acknowledge, Add;
    EdgeNext(tx.tiles, tx.current, r, n);
    AcknowledgeNext(tx, n);
    LeftRound(Acknowledge(tx, 0, n), Edge(tx.tiles, tx.current, n), last);
  }

  lemma {:induction false} LeftLoop(tx: Tx, r: Ring, n: nat, last: uint32)
    requires Tiling(tx.tiles, tx.current, r) && n <= |tx.tiles|
    ensures var m := TakeTo(tx.tiles, n, last);
      LeftWalk(tx, n, last) == (Acknowledge(tx, 0, m), Edge(tx.tiles, tx.current, m))
    decreases |tx.tiles| - n
  {
    hide Tiling, Acknowledge, Edge, Takes, LeftWalk;
    if n == |tx.tiles| {
      LeftWalkEnds(tx, last);
    } else {
      LeftWalkRound(tx, r, n, last);
      if Takes(tx.tiles[n], last) {
        LeftLoop(tx, r, n + 1, last);
      }
    }
  }

  // Further on.

  /** Taking an acknowledged segment out of the queues changes nothing: it is in none. */
  lemma AckedNotQueued(tx: Tx, r: Ring, k: nat)
    requires TxOk(tx, r) && k < |tx.tiles| && tx.tiles[k].acked
    ensures tx.tiles[k].id !in tx.priority && tx.tiles[k].id !in tx.queue && tx.tiles[k].id !in tx.waiting
  {
    var id := tx.tiles[k].id;
    assert !Pending(tx.tiles, tx.Sent(), id);
    SentNotQueued(tx.tiles, tx.current, tx.queue, k);
  }

  lemma {:induction false} StillForeign(list: seq<nat>, tiles: seq<Tile>, from: nat, end: nat, id: nat)
    requires from <= end <= |tiles| && id !in list
    ensures id !in Unlinked(list, tiles, from, end)
    decreases end
  {
    if from < end {
      StillForeign(list, tiles, from, end - 1, id);
      var l := Unlinked(list, tiles, from, end - 1);
      WithoutCounts<nat>(l, tiles[end - 1].id);
      assert id !in multiset(l);
      assert id !in multiset(Without<nat>(l, tiles[end - 1].id));
    }
  }

  /** One more segment further on. */
  lemma MarkNext(tx: Tx, r: Ring, from: nat, n: nat)
    requires TxOk(tx, r) && 0 < from <= n < |tx.tiles|
    ensures MarkAt(Acknowledge(tx, from, n), n) == Acknowledge(tx, from, n + 1)
  {
    var t := tx.tiles[n];
    if t.acked {
      AckedNotQueued(tx, r, n);
      AckedUnlinked(tx.priority, tx.tiles, from, n);
      AckedUnlinked(tx.queue, tx.tiles, from, n);
      AckedUnlinked(tx.waiting, tx.tiles, from, n);
    }
    hide TxOk;
    MarkedNext(tx.tiles, from, n);
  }

  lemma AckedUnlinked(list: seq<nat>, tiles: seq<Tile>, from: nat, n: nat)
    requires from <= n < |tiles| && tiles[n].id !in list
    ensures Unlinked(list, tiles, from, n + 1) == Unlinked(list, tiles, from, n)
  {
    StillForeign(list, tiles, from, n, tiles[n].id);
    WithoutForeign(Unlinked(list, tiles, from, n), tiles[n].id);
  }

  lemma MarkedNext(tiles: seq<Tile>, from: nat, n: nat)
    requires from <= n < |tiles|
    ensures Marked(tiles, from, n + 1) == Marked(tiles, from, n)[n := tiles[n].(acked := true)]
    ensures tiles[n].acked ==> Marked(tiles, from, n + 1) == Marked(tiles, from, n)
  {}

  /** One round of the walk further on. */
  lemma AheadRound(tx: Tx, i: nat, seqNo: uint32, last: uint32)
    requires i < |tx.tiles| && tx.tiles[i].seqNo == seqNo != tx.current
    ensures var t := tx.tiles[i];
      AckLoop(tx, i, seqNo, 0, last)
      == if Takes(t, last) then AckLoop(MarkAt(tx, i), i + 1, Add(seqNo, t.length), 0, last) else (tx, 0)
  {}

  lemma {:induction false} AheadLoop(tx: Tx, r: Ring, from: nat, n: nat, last: uint32)
    requires TxOk(tx, r) && 0 < from <= n <= |tx.tiles|
    ensures var m := TakeTo(tx.tiles, n, last);
      AckLoop(Acknowledge(tx, from, n), n, Boundary(tx.tiles, tx.current, n), 0, last)
      == (Acknowledge(tx, from, m), 0)
    decreases |tx.tiles| - n
  {
    if n < |tx.tiles| {
      EdgeNext(tx.tiles, tx.current, r, n);
      MarkNext(tx, r, from, n);
      AheadOfEdge(tx.tiles, tx.current, r, n);
      assert Acknowledge(tx, from, n).tiles[n] == tx.tiles[n];
      assert |Acknowledge(tx, from, n).tiles| == |tx.tiles| && Acknowledge(tx, from, n).current == tx.current;
      hide TxOk, MarkAt, Acknowledge, Boundary, Takes, AckLoop;
      AheadRound(Acknowledge(tx, from, n), n, tx.tiles[n].seqNo, last);
      if Takes(tx.tiles[n], last) {
        AheadLoop(tx, r, from, n + 1, last);
      }
    }
  }

  lemma AheadOfEdge(tiles: seq<Tile>, base: uint32, r: Ring, n: nat)
    requires Tiling(tiles, base, r) && 0 < n < |tiles|
    ensures tiles[n].seqNo != base
  {}

  lemma AckLoopOnBlock(tx: Tx, r: Ring, i: nat, last: uint32)
    requires TxOk(tx, r) && i < |tx.tiles|
    ensures var m := TakeTo(tx.tiles, i, last);
      AckLoop(tx, i, tx.tiles[i].seqNo, 0, last)
      == (Acknowledge(tx, i, m), if i == 0 then Edge(tx.tiles, tx.current, m) else 0)
  {
    hide AckLoop;
    NothingUnlinked(tx, i);
    EdgeNext(tx.tiles, tx.current, r, i);
    EdgeAt(tx.tiles, tx.current, r, 0);
    hide TxOk, Acknowledge, Edge, Boundary, TakeTo;
    if i == 0 {
      LeftLoop(tx, r, 0, last);
    } else {
      AheadLoop(tx, r, i, i, last);
    }
  }

  lemma StoppedLoop(tx: Tx, i: nat, first: uint32, last: uint32)
    requires i == SkipTo(tx.tiles, 0, first) && (i < |tx.tiles| ==> first != tx.tiles[i].seqNo)
    ensures AckLoop(tx, i, first, 0, last) == (tx, 0)
  {
    SkipStops(tx.tiles, 0, first);
    hide Less, Greater;
  }

  lemma {:induction false} SkipStops(tiles: seq<Tile>, i: nat, first: uint32)
    requires i <= |tiles|
    ensures var k := SkipTo(tiles, i, first); k < |tiles| ==> !Greater(first, tiles[k].seqNo)
    decreases |tiles| - i
  {
    if i < |tiles| && Greater(first, tiles[i].seqNo) {
      SkipStops(tiles, i + 1, first);
    }
  }

  /** The walk of prvTCPWindowTxCheckAck computes what CheckAck says. */
  lemma AckLoopIsCheckAck(tx: Tx, r: Ring, first: uint32, last: uint32)
    requires TxOk(tx, r)
    ensures AckLoop(tx, 0, first, 0, last) == CheckAck(tx, first, last)
  {
    var i := SkipTo(tx.tiles, 0, first);
    EdgeAt(tx.tiles, tx.current, r, 0);
    NothingUnlinked(tx, i);
    if Less(first, last) {
      SkipLoop(tx, 0, first, last);
      if i < |tx.tiles| && first == tx.tiles[i].seqNo {
        AckLoopOnBlock(tx, r, i, last);
        hide TxOk, AckLoop, Acknowledge, Boundary, Edge, Less;
      } else {
        StoppedLoop(tx, i, first, last);
        hide TxOk, Acknowledge, Boundary, Less, Greater, AckLoop;
      }
    } else {
      hide TxOk, Acknowledge, Boundary, Less;
    }
  }

  // ---- prvTCPWindowFastRetransmit -------------------------------------------------------

  /** Position i of the waiting queue, which holds segment k: one more duplicate is counted if the
      block is further on, and the third takes the segment to the priority queue. */
  function FastAt(tx: Tx, i: nat, k: nat, first: uint32): Tx
    requires i < |tx.waiting| && k < |tx.tiles|
  {
    var t := tx.tiles[k];
    var count := (t.dupAckCount + 1) % 256;
    if t.acked || !Less(t.seqNo, first) then tx
    else if count != 3 then tx.(tiles := tx.tiles[k := t.(dupAckCount := count)])
    else tx.(tiles := tx.tiles[k := t.(dupAckCount := count, transmitCount := 0)],
             waiting := tx.waiting[..i] + tx.waiting[i + 1..],
             priority := tx.priority + [tx.waiting[i]])
  }

  /** Every name in the list belongs to a segment. */
  ghost predicate AllNamed(tiles: seq<Tile>, list: seq<nat>) {
    forall id :: id in list ==> exists i :: 0 <= i < |tiles| && tiles[i].id == id
  }

  lemma FastAtNamed(tx: Tx, i: nat, k: nat, first: uint32)
    requires i < |tx.waiting| && k < |tx.tiles| && AllNamed(tx.tiles, tx.waiting)
    ensures var u := FastAt(tx, i, k, first); AllNamed(u.tiles, u.waiting)
  {
    var u := FastAt(tx, i, k, first);
    forall id | id in u.waiting ensures exists l :: 0 <= l < |u.tiles| && u.tiles[l].id == id {
      assert id in tx.waiting;
      var l :| 0 <= l < |tx.tiles| && tx.tiles[l].id == id;
      assert u.tiles[l].id == id;
    }
  }

  /** The walk over the waiting queue from position i on. */
  function FastLoop(tx: Tx, i: nat, first: uint32): Tx
    requires i <= |tx.waiting| && AllNamed(tx.tiles, tx.waiting)
    decreases |tx.waiting| - i
  {
    if i == |tx.waiting| then tx
    else
      assert tx.waiting[i] in tx.waiting;
      var k := Named(tx.tiles, tx.waiting[i]);
      FastAtNamed(tx, i, k, first);
      var u := FastAt(tx, i, k, first);
      FastLoop(u, if |u.waiting| < |tx.waiting| then i else i + 1, first)
  }

  /** The segments once the first n of the waiting queue have been looked at. */
  function BumpedSome(tiles: seq<Tile>, waiting: seq<nat>, n: nat, first: uint32): (r: seq<Tile>)
    requires n <= |waiting|
    ensures |r| == |tiles|
    ensures forall i :: 0 <= i < |r| ==>
      r[i] == if tiles[i].id in waiting[..n] then Bump(tiles[i], waiting, first) else tiles[i]
  {
    seq(|tiles|, i requires 0 <= i < |tiles| =>
      if tiles[i].id in waiting[..n] then Bump(tiles[i], waiting, first) else tiles[i])
  }

  /** The window at that point. */
  function Half(tx: Tx, n: nat, first: uint32): Tx
    requires n <= |tx.waiting|
  {
    var w := tx.waiting;
    tx.(tiles := BumpedSome(tx.tiles, w, n, first),
        waiting := Select(w[..n], tx.tiles, w, first, false) + w[n..],
        priority := tx.priority + Select(w[..n], tx.tiles, w, first, true))
  }

  function HalfAt(tx: Tx, n: nat, first: uint32): (i: nat)
    requires n <= |tx.waiting|
    ensures i <= |Half(tx, n, first).waiting|
  {
    |Select(tx.waiting[..n], tx.tiles, tx.waiting, first, false)|
  }

  lemma SelectNext(w: seq<nat>, n: nat, tiles: seq<Tile>, first: uint32, due: bool)
    requires n < |w|
    ensures Select(w[..n + 1], tiles, w, first, due)
      == Select(w[..n], tiles, w, first, due) + if NamesDue(tiles, w, first, w[n]) == due then [w[n]] else []
  {
    assert w[..n + 1][..n] == w[..n];
  }

  lemma BumpedNext(tiles: seq<Tile>, base: uint32, w: seq<nat>, n: nat, first: uint32, k: nat)
    requires Ordered(tiles, base) && NoDup(w) && n < |w| && k < |tiles| && tiles[k].id == w[n]
    ensures BumpedSome(tiles, w, n, first)[k] == tiles[k]
    ensures BumpedSome(tiles, w, n + 1, first) == BumpedSome(tiles, w, n, first)[k := Bump(tiles[k], w, first)]
    ensures NamesDue(tiles, w, first, w[n]) <==> Due(tiles[k], w, first)
  {}

  lemma HalfNamed(tx: Tx, n: nat, first: uint32)
    requires n <= |tx.waiting| && AllNamed(tx.tiles, tx.waiting)
    ensures AllNamed(Half(tx, n, first).tiles, Half(tx, n, first).waiting)
  {
    var u := Half(tx, n, first);
    forall id | id in u.waiting ensures exists l :: 0 <= l < |u.tiles| && u.tiles[l].id == id {
      assert id in tx.waiting;
      var l :| 0 <= l < |tx.tiles| && tx.tiles[l].id == id;
      assert u.tiles[l].id == id;
    }
  }

  /** The list a + [x] + rest, walked up to x. */
  lemma WalkedTo(a: seq<nat>, list: seq<nat>, n: nat)
    requires n < |list|
    ensures var l := a + list[n..];
      && |a| < |l| && l[|a|] == list[n]
      && l[..|a|] + l[|a| + 1..] == a + list[n + 1..]
      && l == (a + [list[n]]) + list[n + 1..]
  {}

  lemma FastAtBumps(tx: Tx, i: nat, k: nat, w: seq<nat>, first: uint32)
    requires i < |tx.waiting| && k < |tx.tiles| && tx.tiles[k].id == tx.waiting[i] && tx.waiting[i] in w
    ensures var t := tx.tiles[k];
      FastAt(tx, i, k, first)
      == if Due(t, w, first)
         then tx.(tiles := tx.tiles[k := Bump(t, w, first)],
                  waiting := tx.waiting[..i] + tx.waiting[i + 1..],
                  priority := tx.priority + [tx.waiting[i]])
         else tx.(tiles := tx.tiles[k := Bump(t, w, first)])
  {}

  /** The window after one more of the waiting segments, seen from the one before. */
  lemma HalfNext(tx: Tx, n: nat, first: uint32, k: nat, u: Tx, v: Tx, a: seq<nat>)
    requires Ordered(tx.tiles, tx.current) && NoDup(tx.waiting) && n < |tx.waiting|
    requires k < |tx.tiles| && tx.tiles[k].id == tx.waiting[n]
    requires u == Half(tx, n, first) && v == Half(tx, n + 1, first)
    requires a == Select(tx.waiting[..n], tx.tiles, tx.waiting, first, false)
    ensures |u.tiles| == |tx.tiles| && u.tiles[k] == tx.tiles[k]
    ensures u.waiting == a + tx.waiting[n..] && HalfAt(tx, n, first) == |a|
    ensures v == u.(tiles := v.tiles, waiting := v.waiting, priority := v.priority)
    ensures v.tiles == u.tiles[k := Bump(tx.tiles[k], tx.waiting, first)]
    ensures var x := tx.waiting[n];
      if Due(tx.tiles[k], tx.waiting, first)
      then v.waiting == a + tx.waiting[n + 1..] && v.priority == u.priority + [x] && HalfAt(tx, n + 1, first) == |a|
      else
        && v.waiting == (a + [x]) + tx.waiting[n + 1..] && v.priority == u.priority
        && HalfAt(tx, n + 1, first) == |a| + 1
  {
    hide Ordered, NoDup, NamesDue, Due, Bump, Select, BumpedSome;
    var w := tx.waiting;
    BumpedNext(tx.tiles, tx.current, w, n, first, k);
    SelectNext(w, n, tx.tiles, first, false);
    SelectNext(w, n, tx.tiles, first, true);
  }

  lemma HalfStep(tx: Tx, n: nat, first: uint32, k: nat)
    requires Ordered(tx.tiles, tx.current) && NoDup(tx.waiting) && n < |tx.waiting|
    requires k < |tx.tiles| && tx.tiles[k].id == tx.waiting[n]
    ensures var u, i := Half(tx, n, first), HalfAt(tx, n, first);
      && i < |u.waiting| && u.waiting[i] == tx.waiting[n] && |u.tiles| == |tx.tiles|
      && FastAt(u, i, k, first) == Half(tx, n + 1, first)
      && HalfAt(tx, n + 1, first) == if |Half(tx, n + 1, first).waiting| < |u.waiting| then i else i + 1
  {
    assert |Half(tx, n, first).tiles| == |tx.tiles|;
    hide Ordered, NoDup, Due, Bump, FastAt, Half, HalfAt, Select;
    var w := tx.waiting;
    var u, v, a := Half(tx, n, first), Half(tx, n + 1, first), Select(w[..n], tx.tiles, w, first, false);
    HalfNext(tx, n, first, k, u, v, a);
    WalkedTo(a, w, n);
    FastAtBumps(u, |a|, k, w, first);
  }

  lemma {:induction false} FastLoopHalf(tx: Tx, n: nat, first: uint32)
    requires Ordered(tx.tiles, tx.current) && NoDup(tx.waiting) && n <= |tx.waiting|
    requires AllNamed(tx.tiles, tx.waiting)
    ensures AllNamed(Half(tx, n, first).tiles, Half(tx, n, first).waiting)
    ensures FastLoop(Half(tx, n, first), HalfAt(tx, n, first), first) == Half(tx, |tx.waiting|, first)
    decreases |tx.waiting| - n
  {
    HalfNamed(tx, n, first);
    var u := Half(tx, n, first);
    if n < |tx.waiting| {
      assert tx.waiting[n] in tx.waiting;
      var k := Named(tx.tiles, tx.waiting[n]);
      assert Named(u.tiles, tx.waiting[n]) == k by {
        SameNames(tx.tiles, u.tiles, tx.waiting[n]);
      }
      HalfStep(tx, n, first, k);
      hide Half, HalfAt, AllNamed, FastAt, NoDup, Ordered;
      FastLoopHalf(tx, n + 1, first);
    }
  }

  /** Segments are found by name at the same place in lists of the same names. */
  lemma {:induction false} SameNames(tiles: seq<Tile>, t: seq<Tile>, id: nat)
    requires |t| == |tiles| && forall i :: 0 <= i < |t| ==> t[i].id == tiles[i].id
    requires exists i :: 0 <= i < |tiles| && tiles[i].id == id
    ensures exists i :: 0 <= i < |t| && t[i].id == id
    ensures Named(t, id) == Named(tiles, id)
    decreases |tiles|
  {
    var i :| 0 <= i < |tiles| && tiles[i].id == id;
    assert t[i].id == id;
    if tiles[0].id != id {
      assert tiles[1..][i - 1].id == id;
      SameNames(tiles[1..], t[1..], id);
    }
  }

  lemma HalfEnds(tx: Tx, first: uint32)
    ensures Half(tx, 0, first) == tx && HalfAt(tx, 0, first) == 0
    ensures Half(tx, |tx.waiting|, first) == FastRetransmit(tx, first)
  {
    var w := tx.waiting;
    assert w[..|w|] == w && w[..0] == [] && w[0..] == w;
    assert BumpedSome(tx.tiles, w, 0, first) == tx.tiles;
    assert BumpedSome(tx.tiles, w, |w|, first) == Bumped(tx.tiles, w, first);
  }

  /** What the walk needs: different names, and every name that waits belongs to a segment. */
  ghost predicate Walkable(tx: Tx) {
    Ordered(tx.tiles, tx.current) && NoDup(tx.waiting) && AllNamed(tx.tiles, tx.waiting)
  }

  /** The walk of prvTCPWindowFastRetransmit computes what FastRetransmit says. */
  lemma FastLoopIsFastRetransmit(tx: Tx, first: uint32)
    requires Walkable(tx)
    ensures AllNamed(tx.tiles, tx.waiting)
    ensures FastLoop(tx, 0, first) == FastRetransmit(tx, first)
  {
    hide FastLoop, Half, HalfAt, FastRetransmit, AllNamed;
    HalfEnds(tx, first);
    FastLoopHalf(tx, 0, first);
  }

  /** Whatever block has been acknowledged, within what has been sent or not, the walk can follow. */
  lemma AcknowledgedWalkable(tx: Tx, r: Ring, first: uint32, last: uint32)
    requires TxOk(tx, r)
    ensures Walkable(CheckAck(tx, first, last).0)
  {
    hide Acknowledged, InPlace, Ordered, Boundary;
    var b := Acknowledged(tx, first, last);
    var u := CheckAck(tx, first, last).0;
    if b.0 == 0 {
      OrderedDrop(tx.tiles, tx.current, r, b.1);
    } else {
      OrderedSame(tx.tiles, u.tiles, tx.current);
    }
    UnlinkedMember(tx.waiting, tx.tiles, b.0, b.1, 0);
    forall id | id in u.waiting ensures exists i :: 0 <= i < |u.tiles| && u.tiles[i].id == id {
      UnlinkedMember(tx.waiting, tx.tiles, b.0, b.1, id);
      StillNamed(tx, u, b.0, b.1, id);
    }
  }

  lemma StillNamed(tx: Tx, u: Tx, from: nat, end: nat, id: nat)
    requires |tx.queue| <= |tx.tiles| && Queued(tx.tiles, tx.Sent(), tx.priority, tx.waiting)
    requires from <= end <= |tx.tiles|
    requires u.tiles == (if from == 0 then tx.tiles[end..] else Marked(tx.tiles, from, end))
    requires id in tx.waiting && !Names(tx.tiles, from, end, id)
    ensures exists i :: 0 <= i < |u.tiles| && u.tiles[i].id == id
  {
    QueuedNamed(tx.tiles, tx.Sent(), tx.priority, tx.waiting, id);
    var i :| 0 <= i < |tx.tiles| && tx.tiles[i].id == id;
    assert i < from || end <= i;
    assert u.tiles[if from == 0 then i - end else i].id == id;
  }
}
