/** What has been sent keeps its shape: until the peer has confirmed it, a segment that has gone out
    stays in the window with the same first byte and the same length, so that two segments of a
    connection are either the same bytes or share none (FreeRTOS_TCP_WIN.c). */
module Flight {
  import opened Common
  import opened Seq32
  import opened StreamBuffers
  import opened TxWindow
  import opened Transmission

  /** A sent segment with the bytes at positions [p, p + n). */
  predicate Flies(t: Tile, base: uint32, una: nat, p: nat, n: nat) {
    t.outstanding && una + Rel(t, base) == p && t.length == n
  }

  ghost predicate FliesIn(tiles: seq<Tile>, base: uint32, una: nat, p: nat, n: nat) {
    exists i :: 0 <= i < |tiles| && Flies(tiles[i], base, una, p, n)
  }

  /** The segment with the bytes at positions [p, p + n) is in flight, or has been confirmed. */
  ghost predicate Flown(s: Sender, p: nat, n: nat) {
    p + n <= s.una || FliesIn(s.tx.tiles, s.tx.current, s.una, p, n)
  }

  /** No segment is longer than the maximum segment size. */
  ghost predicate Short(tx: Tx) {
    forall i :: 0 <= i < |tx.tiles| ==> tx.tiles[i].maxLength <= tx.mss
  }

  // ---- Segments in flight do not overlap ------------------------------------------------

  /** A segment in flight lies between the left edge and the highest number sent. */
  lemma FlightWithin(s: Sender, p: nat, n: nat)
    requires TxOk(s.tx, s.stream) && FliesIn(s.tx.tiles, s.tx.current, s.una, p, n)
    ensures 0 < n && s.una <= p && p + n <= s.una + InFlight(s.tx)
    ensures Short(s.tx) ==> n <= s.tx.mss
  {
    hide Queued, Ordered, Highest;
    var i :| 0 <= i < |s.tx.tiles| && Flies(s.tx.tiles[i], s.tx.current, s.una, p, n);
    EdgeSplits(s.tx.tiles, s.tx.current, s.stream, s.tx.Sent(), i);
    assert i < s.tx.Sent();
    assert 0 < s.tx.tiles[i].length <= s.tx.tiles[i].maxLength;
  }

  lemma FlownApart(s: Sender, p: nat, n: nat, q: nat, m: nat)
    requires TxOk(s.tx, s.stream) && Flown(s, p, n) && FliesIn(s.tx.tiles, s.tx.current, s.una, q, m)
    ensures (p == q && n == m) || p + n <= q || q + m <= p
  {}

  // ---- The operations of the window -----------------------------------------------------

  lemma FliesSame(tiles: seq<Tile>, t: seq<Tile>, base: uint32, una: nat, p: nat, n: nat)
    requires FliesIn(tiles, base, una, p, n) && |tiles| <= |t|
    requires forall i :: 0 <= i < |tiles| && tiles[i].outstanding ==>
      t[i].outstanding && t[i].seqNo == tiles[i].seqNo && t[i].length == tiles[i].length
    ensures FliesIn(t, base, una, p, n)
  {}

  lemma FliesDrop(tiles: seq<Tile>, base: uint32, r: Ring, k: nat, una: nat, p: nat, n: nat)
    requires Tiling(tiles, base, r) && k <= |tiles| && FliesIn(tiles, base, una, p, n)
    ensures var una' := una + Edge(tiles, base, k);
      p + n <= una' || FliesIn(tiles[k..], Boundary(tiles, base, k), una', p, n)
  {
    hide Ordered, InPlace, Edge, Boundary;
    var i :| 0 <= i < |tiles| && Flies(tiles[i], base, una, p, n);
    EdgeSplits(tiles, base, r, k, i);
    if k <= i {
      RelDrop(tiles, base, r, k, i);
      assert tiles[k..][i - k] == tiles[i];
    }
  }

  /** A segment in flight before a step of the window is in flight or confirmed after it. */
  ghost predicate Lasts(tx: Tx, u: Tx, una: nat, una': nat) {
    && (forall p: nat, n: nat :: FliesIn(tx.tiles, tx.current, una, p, n) ==>
         p + n <= una' || FliesIn(u.tiles, u.current, una', p, n))
    && u.mss == tx.mss && u.sendFullSize == tx.sendFullSize
    && (Short(tx) ==> Short(u))
  }

  lemma CheckAckLasts(tx: Tx, r: Ring, first: uint32, last: uint32, una: nat)
    requires TxOk(tx, r)
    ensures var (u, count) := CheckAck(tx, first, last);
      Lasts(tx, u, una, una + count)
  {
    hide QueuesOk, Acknowledged, InPlace, Ordered, Boundary, Flies;
    var b := Acknowledged(tx, first, last);
    var (u, count) := CheckAck(tx, first, last);
    forall p: nat, n: nat | FliesIn(tx.tiles, tx.current, una, p, n)
      ensures p + n <= una + count || FliesIn(u.tiles, u.current, una + count, p, n)
    {
      if b.0 == 0 {
        FliesDrop(tx.tiles, tx.current, r, b.1, una, p, n);
      } else {
        FliesSame(tx.tiles, u.tiles, tx.current, una, p, n);
      }
    }
  }

  lemma FastRetransmitLasts(tx: Tx, first: uint32, una: nat)
    ensures Lasts(tx, FastRetransmit(tx, first), una, una)
  {}

  lemma LastsTransitive(a: Tx, b: Tx, c: Tx, x: nat, y: nat, z: nat)
    requires Lasts(a, b, x, y) && Lasts(b, c, y, z) && y <= z
    ensures Lasts(a, c, x, z)
  {}

  lemma LastsItself(tx: Tx, u: Tx, una: nat)
    requires u.tiles == tx.tiles && u.current == tx.current && u.mss == tx.mss && u.sendFullSize == tx.sendFullSize
    ensures Lasts(tx, u, una, una)
  {}

  /** Adding data does not change what has been sent, and what it adds is not in flight. */
  lemma AddLasts(tx: Tx, r: Ring, n: uint32, free: seq<nat>, una: nat)
    requires TxOk(tx, r) && n <= r.size - r.mid
    ensures Lasts(tx, TxAdd(tx, n, Advance(r.tail, r.mid, |r.view|), |r.view|, free).0, una, una)
  {
    hide Lasts, InPlace, Ordered, Queued, Highest, Grow, Fill;
    FillLasts(tx, r, n, una);
    var (u, k) := Fill(tx, n);
    GrowLasts(u, n - k, Advance(Advance(r.tail, r.mid, |r.view|), k, |r.view|), |r.view|, free, una);
    LastsTransitive(tx, u, TxAdd(tx, n, Advance(r.tail, r.mid, |r.view|), |r.view|, free).0, una, una, una);
  }

  lemma FillLasts(tx: Tx, r: Ring, n: uint32, una: nat)
    requires TxOk(tx, r)
    ensures Lasts(tx, Fill(tx, n).0, una, una)
  {
    hide Flies, InPlace, Ordered, Queued, Highest;
    if tx.head.Some? {
      FillGrows(tx, r, n);
      var u := Fill(tx, n).0;
      assert !tx.tiles[|tx.tiles| - 1].outstanding;
      forall p: nat, m: nat | FliesIn(tx.tiles, tx.current, una, p, m) ensures FliesIn(u.tiles, tx.current, una, p, m) {
        FliesSame(tx.tiles, u.tiles, tx.current, una, p, m);
      }
    }
  }

  lemma {:induction false} GrowLasts(tx: Tx, left: uint32, position: nat, length: nat, free: seq<nat>, una: nat)
    requires 0 < tx.mss && position < length && left <= length
    ensures Lasts(tx, Grow(tx, left, position, length, free).0, una, una)
    decreases left
  {
    hide Lasts, Append;
    if left == 0 || free == [] {
      LastsItself(tx, tx, una);
    } else {
      var k := Min(left, tx.mss);
      var u := Append(tx, free[0], k, position);
      AppendLasts(tx, free[0], k, position, una);
      GrowLasts(u, left - k, Advance(position, k, length), length, free[1..], una);
      LastsTransitive(tx, u, Grow(tx, left, position, length, free).0, una, una, una);
    }
  }

  lemma AppendLasts(tx: Tx, id: nat, k: uint32, position: nat, una: nat)
    ensures Append(tx, id, k, position).mss == tx.mss
    ensures Lasts(tx, Append(tx, id, k, position), una, una)
  {
    hide Flies;
    var t := Append(tx, id, k, position).tiles;
    forall p: nat, n: nat | FliesIn(tx.tiles, tx.current, una, p, n) ensures FliesIn(t, tx.current, una, p, n) {
      FliesSame(tx.tiles, t, tx.current, una, p, n);
    }
  }

  lemma GetLasts(tx: Tx, window: uint32, expired: bool, una: nat)
    requires QueuesOk(tx.tiles, tx.queue, tx.priority, tx.waiting, tx.head)
    ensures Lasts(tx, TxGet(tx, window, expired).0, una, una)
  {
    hide Flies;
    GetTouches(tx, window, expired);
    var u := TxGet(tx, window, expired).0;
    hide QueuesOk, TxGet;
    forall p: nat, n: nat | FliesIn(tx.tiles, tx.current, una, p, n) ensures FliesIn(u.tiles, tx.current, una, p, n) {
      FliesSame(tx.tiles, u.tiles, tx.current, una, p, n);
    }
  }

  lemma GetTouches(tx: Tx, window: uint32, expired: bool)
    requires QueuesOk(tx.tiles, tx.queue, tx.priority, tx.waiting, tx.head)
    ensures var u := TxGet(tx, window, expired).0;
      && u.current == tx.current && u.mss == tx.mss && u.sendFullSize == tx.sendFullSize && SameShape(tx.tiles, u.tiles)
      && forall i :: 0 <= i < |tx.tiles| && tx.tiles[i].outstanding ==> u.tiles[i].outstanding
  {
    hide QueuesOk, HasSpace;
  }

  // ---- Every step of the sender ---------------------------------------------------------

  lemma ConfirmLasts(s: Sender, first: int, u: Tx, count: nat, report: Report)
    requires InStep(s, first) && s.stream.Ok() && Confirmed(s, u, count, report)
    requires Lasts(s.tx, u, s.una, s.una + count)
    ensures var s' := Confirm(s, u, count, report); Lasts(s.tx, s'.tx, s.una, s'.una)
  {
    hide InStep, Lasts, TxOk, Covered;
  }

  lemma AckLasts(s: Sender, first: int, ack: uint32)
    requires InStep(s, first) && (LessOrEqual(ack, s.tx.current) || Sub(ack, s.tx.current) <= InFlight(s.tx))
    ensures s.stream.Ok() && Lasts(s.tx, Ack(s, ack).tx, s.una, Ack(s, ack).una)
  {
    hide InStep, TxOk, Lasts, Confirmed, CheckAck, Confirm, LessOrEqual;
    InStepParts(s, first);
    var u, count := AckConfirmed(s, first, ack);
    if LessOrEqual(ack, s.tx.current) {
      LastsItself(s.tx, u, s.una);
    } else {
      CheckAckLasts(s.tx, s.stream, s.tx.current, ack, s.una);
    }
    ConfirmLasts(s, first, u, count, Report(0, s.una + Seq32.Distance(ack, s.tx.current)));
  }

  lemma SackLasts(s: Sender, first: int, from: uint32, last: uint32)
    requires InStep(s, first) && BlockWithin(s.tx, from, last)
    ensures Lasts(s.tx, Sack(s, from, last).tx, s.una, Sack(s, from, last).una)
  {
    hide InStep, TxOk, Lasts, Confirmed, CheckAck, Confirm, SackReport, BlockWithin, FastRetransmit;
    InStepParts(s, first);
    var u, count := SackConfirmed(s, first, from, last);
    var v := CheckAck(s.tx, from, last);
    CheckAckLasts(s.tx, s.stream, from, last, s.una);
    FastRetransmitLasts(v.0, from, s.una + v.1);
    LastsTransitive(s.tx, v.0, u, s.una, s.una + v.1, s.una + v.1);
    ConfirmLasts(s, first, u, count, SackReport(s, from, last));
  }

  /** Whatever the sender does, a segment that has gone out stays as it is until it is confirmed. */
  lemma StepLasts(s: Sender, first: int, e: Event)
    requires InStep(s, first) && Allowed(s, e)
    ensures Lasts(s.tx, Next(s, e).tx, s.una, Next(s, e).una)
  {
    hide InStep, Lasts, TxAdd, TxGet, Ack, Sack, BlockWithin;
    InStepParts(s, first);
    match e
    case Written(data) => LastsItself(s.tx, s.tx, s.una);
    case Handed(free) =>
      if s.stream.size == s.stream.mid {
        LastsItself(s.tx, s.tx, s.una);
      } else {
        AddLasts(s.tx, s.stream, s.stream.size - s.stream.mid, free, s.una);
      }
    case Sent(window, expired) => GetLasts(s.tx, window, expired, s.una);
    case Acked(number) => AckLasts(s, first, number);
    case Sacked(from, last) => SackLasts(s, first, from, last);
  }

  lemma FlownLasts(s: Sender, first: int, e: Event, p: nat, n: nat)
    requires InStep(s, first) && Allowed(s, e) && Flown(s, p, n)
    ensures Flown(Next(s, e), p, n)
  {
    hide InStep, Next, FliesIn, Allowed;
    StepKeeps(s, first, e);
    StepLasts(s, first, e);
  }

  /** What goes out is in flight from then on. */
  lemma EmittedFlies(s: Sender, first: int, window: uint32, expired: bool)
    requires InStep(s, first) && Emitted(s, window, expired).Some?
    ensures var (seqNo, bytes) := Emitted(s, window, expired).value;
      var u := Emit(s, window, expired).tx;
      FliesIn(u.tiles, u.current, s.una, Position(s, seqNo), |bytes|)
  {
    hide InPlace, Ordered, Queued, SentFirst, Highest, TxGet, Peek, Holds, Covered;
    TxGetSends(s.tx, s.stream, window, expired);
    var (u, m) := TxGet(s.tx, window, expired);
    var t := s.tx.tiles[m.value];
    PeekAt(s.stream, Rel(t, s.tx.current), t.length);
    GetTouches(s.tx, window, expired);
    assert Flies(u.tiles[m.value], u.current, s.una, Position(s, u.ourSeq), t.length);
  }
}
