/** What acknowledgements do to the left edge of the transmit window (FreeRTOS_TCP_WIN.c). */
module Acknowledgement {
  import opened Common
  import opened Seq32
  import opened StreamBuffers
  import opened TxWindow

  /** The first segment from i on that does not start below offset a. */
  function StartsBelow(tiles: seq<Tile>, base: uint32, i: nat, a: nat): (n: nat)
    requires i <= |tiles|
    ensures i <= n <= |tiles|
    ensures forall k :: i <= k < n ==> Rel(tiles[k], base) < a
    ensures n < |tiles| ==> Rel(tiles[n], base) >= a
    decreases |tiles| - i
  {
    if i < |tiles| && Rel(tiles[i], base) < a then StartsBelow(tiles, base, i + 1, a) else i
  }

  /** A segment that reaches past offset a and is not acknowledged yet. */
  predicate Partial(t: Tile, base: uint32, a: nat) {
    !t.acked && RelEnd(t, base) > a
  }

  lemma TakesHere(tiles: seq<Tile>, base: uint32, r: Ring, i: nat, last: uint32)
    requires Tiling(tiles, base, r) && i < |tiles| && Sub(last, base) < TWO31
    ensures Takes(tiles[i], last)
      <==> Rel(tiles[i], base) < Sub(last, base) && !Partial(tiles[i], base, Sub(last, base))
    ensures i + 1 < |tiles| && Rel(tiles[i + 1], base) < Sub(last, base) ==> !Partial(tiles[i], base, Sub(last, base))
  {
    RelBound(tiles, base, r, i);
    TakesMeans(tiles[i], base, base, last);
    if i + 1 < |tiles| {
      assert RelEnd(tiles[i], base) == Rel(tiles[i + 1], base);
    }
  }

  lemma {:induction false} TakeToExact(tiles: seq<Tile>, base: uint32, r: Ring, i: nat, last: uint32)
    requires Tiling(tiles, base, r) && i <= |tiles| && Sub(last, base) < TWO31
    ensures var n := StartsBelow(tiles, base, i, Sub(last, base));
      TakeTo(tiles, i, last) == if n > i && Partial(tiles[n - 1], base, Sub(last, base)) then n - 1 else n
    decreases |tiles| - i
  {
    hide Tiling, Takes, Partial, Rel;
    if i < |tiles| {
      TakesHere(tiles, base, r, i, last);
      if Rel(tiles[i], base) < Sub(last, base) {
        TakeToExact(tiles, base, r, i + 1, last);
      }
    }
  }

  /** The number of segments a cumulative acknowledgement frees: all that start below it, except
      that the last of them stays if it goes on past the number and was not acknowledged before. */
  function Freed(tx: Tx, ack: uint32): (n: nat)
    ensures n <= |tx.tiles|
  {
    var a := Sub(ack, tx.current);
    var n := StartsBelow(tx.tiles, tx.current, 0, a);
    if n > 0 && Partial(tx.tiles[n - 1], tx.current, a) then n - 1 else n
  }

  lemma AckTakes(tx: Tx, r: Ring, ack: uint32)
    requires TxOk(tx, r) && 0 < Sub(ack, tx.current) < TWO31
    ensures Acknowledged(tx, tx.current, ack) == (0, Freed(tx, ack))
  {
    hide InPlace, Ordered, Queued, SentFirst, Highest;
    EdgeAt(tx.tiles, tx.current, r, 0);
    if tx.tiles != [] {
      TakeToExact(tx.tiles, tx.current, r, 0, ack);
    }
  }

  /** Where a cumulative acknowledgement above the left edge takes it. */
  lemma AckExact(tx: Tx, r: Ring, ack: uint32)
    requires TxOk(tx, r) && 0 < Sub(ack, tx.current) < TWO31
    ensures var (tx', count) := TxAck(tx, ack);
      && tx'.tiles == tx.tiles[Freed(tx, ack)..] && tx'.head == tx.head
      && tx'.current == Boundary(tx.tiles, tx.current, Freed(tx, ack)) == Add(tx.current, count)
      && count == Edge(tx.tiles, tx.current, Freed(tx, ack))
  {
    AckTakes(tx, r, ack);
    EdgeAt(tx.tiles, tx.current, r, Freed(tx, ack));
    hide QueuesOk, EdgesOk, Freed, Acknowledged, Boundary;
  }

  lemma FreedAtBoundary(tx: Tx, r: Ring, n: nat)
    requires TxOk(tx, r) && 0 < n <= |tx.tiles|
    ensures 0 < Edge(tx.tiles, tx.current, n) < TWO31
    ensures Freed(tx, Boundary(tx.tiles, tx.current, n)) == n
  {
    hide QueuesOk, InPlace, Ordered, Highest, Boundary;
    EdgeAt(tx.tiles, tx.current, r, n);
    RelBound(tx.tiles, tx.current, r, n - 1);
    var m := StartsBelow(tx.tiles, tx.current, 0, Edge(tx.tiles, tx.current, n));
    if m < |tx.tiles| {
      EdgeSplits(tx.tiles, tx.current, r, n, m);
    }
    if m > 0 {
      EdgeSplits(tx.tiles, tx.current, r, n, m - 1);
    }
  }

  /** An acknowledgement of a whole number of segments moves the left edge exactly to it. */
  lemma AckAtBoundary(tx: Tx, r: Ring, n: nat)
    requires TxOk(tx, r) && 0 < n <= |tx.tiles|
    ensures var ack := Boundary(tx.tiles, tx.current, n);
      TxAck(tx, ack).0.current == ack && TxAck(tx, ack).0.tiles == tx.tiles[n..]
  {
    hide TxOk, TxAck, Freed, Boundary;
    FreedAtBoundary(tx, r, n);
    AckExact(tx, r, Boundary(tx.tiles, tx.current, n));
  }

  lemma FreedInside(tx: Tx, r: Ring, n: nat, ack: uint32)
    requires TxOk(tx, r) && n < |tx.tiles| && !tx.tiles[n].acked
    requires Rel(tx.tiles[n], tx.current) < Sub(ack, tx.current) < RelEnd(tx.tiles[n], tx.current)
    ensures Sub(ack, tx.current) < TWO31 && Freed(tx, ack) == n
  {
    hide QueuesOk, InPlace, Highest, Boundary, Sub;
    var a := Sub(ack, tx.current);
    RelBound(tx.tiles, tx.current, r, n);
    var m := StartsBelow(tx.tiles, tx.current, 0, a);
    if n + 1 < |tx.tiles| {
      assert RelEnd(tx.tiles[n], tx.current) <= Rel(tx.tiles[n + 1], tx.current);
    }
  }

  /** An acknowledgement of part of a segment is not counted for that segment. */
  lemma AckInside(tx: Tx, r: Ring, n: nat, ack: uint32)
    requires TxOk(tx, r) && n < |tx.tiles| && !tx.tiles[n].acked
    requires Rel(tx.tiles[n], tx.current) < Sub(ack, tx.current) < RelEnd(tx.tiles[n], tx.current)
    ensures TxAck(tx, ack).0.current == tx.tiles[n].seqNo && TxAck(tx, ack).0.tiles == tx.tiles[n..]
  {
    hide TxOk, TxAck, Freed, Sub, Rel, RelEnd;
    FreedInside(tx, r, n, ack);
    AckExact(tx, r, ack);
  }

  /** The growing segment is one of the window's. */
  ghost predicate HeadLinked(tx: Tx) {
    tx.head.Some? ==> exists i :: 0 <= i < |tx.tiles| && tx.tiles[i].id == tx.head.value
  }

  /** Nothing checks an acknowledgement against the highest number sent. The pointer to the
      growing segment dangles exactly when the number takes in that segment, which has never been
      sent. */
  lemma HeadLinkedExact(tx: Tx, r: Ring, ack: uint32)
    requires TxOk(tx, r) && 0 < Sub(ack, tx.current) < TWO31
    ensures HeadLinked(TxAck(tx, ack).0)
       <==> !(tx.head.Some? && Sub(ack, tx.current) >= r.mid)
  {
    hide TxOk, TxAck, Freed, Boundary, Edge, Sub, Add;
    AckExact(tx, r, ack);
    var tx' := TxAck(tx, ack).0;
    if tx.head.Some? {
      LastFreed(tx, r, ack);
      var l := |tx.tiles| - 1;
      if Freed(tx, ack) <= l {
        assert tx'.tiles[l - Freed(tx, ack)] == tx.tiles[l];
      }
    }
  }

  lemma LastFreed(tx: Tx, r: Ring, ack: uint32)
    requires TxOk(tx, r) && 0 < Sub(ack, tx.current) < TWO31 && tx.head.Some?
    ensures tx.tiles != []
    ensures Freed(tx, ack) == |tx.tiles| <==> Sub(ack, tx.current) >= r.mid
    ensures TxAck(tx, ack).0.head == tx.head
    ensures tx.head.value == tx.tiles[|tx.tiles| - 1].id
  {
    var l, a := |tx.tiles| - 1, Sub(ack, tx.current);
    assert Growing(tx.tiles, tx.queue, tx.head.value);
    EdgeAt(tx.tiles, tx.current, r, |tx.tiles|);
    RelBound(tx.tiles, tx.current, r, l);
    assert !tx.tiles[l].acked;
    var n := StartsBelow(tx.tiles, tx.current, 0, a);
    if n <= l {
      EdgeSplits(tx.tiles, tx.current, r, l, n);
    }
  }
}
