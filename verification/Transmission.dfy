/** The transmission path of an established connection (FreeRTOS_TCP_IP.c, FreeRTOS_Sockets.c):
    the owner's bytes go into the transmit stream, the window cuts them into segments, segments go
    out any number of times, and acknowledgements take bytes off the stream.

    Positions count the owner's bytes from 0; byte 0 has sequence number Wrap(first). */
module Transmission {
  import opened Common
  import opened Seq32
  import opened StreamBuffers
  import opened TxWindow
  import opened Acknowledgement

  /** Positions that the peer has reported as received: [low, high). */
  datatype Report = Report(low: int, high: int)

  /** The window and stream of a socket, with what has happened so far: the bytes the owner has
      written, how many of them have been confirmed, and what the peer has reported. */
  datatype Sender = Sender(tx: Tx, stream: Ring, written: seq<byte>, una: nat, reports: seq<Report>)

  /** The position lies in a block that the peer has acknowledged. */
  ghost predicate Reported(reports: seq<Report>, p: int) {
    exists k :: 0 <= k < |reports| && reports[k].low <= p < reports[k].high
  }

  // ---- The invariant --------------------------------------------------------------------

  /** Window and stream are in step with what has been written and confirmed. */
  ghost predicate InStep(s: Sender, first: int) {
    true <==>
    && TxOk(s.tx, s.stream)
    && s.tx.current == Wrap(first + s.una)
    && Holds(s.stream, s.written, s.una)
    && Covered(s.tx.tiles, s.tx.current, s.una, s.reports)
  }

  /** The stream holds exactly the bytes that are not confirmed. */
  ghost predicate Holds(r: Ring, written: seq<byte>, una: nat) {
    true <==>
    && r.Ok() && una <= |written| && r.Contents() == written[una..]
  }

  /** Confirmed bytes, and bytes of segments marked as acknowledged, have all been reported. */
  ghost predicate Covered(tiles: seq<Tile>, base: uint32, una: nat, reports: seq<Report>) {
    && (forall p :: 0 <= p < una ==> Reported(reports, p))
    && (forall i :: 0 <= i < |tiles| && tiles[i].acked ==> TileCovered(tiles[i], base, una, reports))
  }

  ghost predicate TileCovered(t: Tile, base: uint32, una: nat, reports: seq<Report>) {
    forall p :: una + Rel(t, base) <= p < una + RelEnd(t, base) ==> Reported(reports, p)
  }

  // ---- Steps ----------------------------------------------------------------------------

  /** FreeRTOS_send: the owner writes as much of data as fits. */
  function Write(s: Sender, data: seq<byte>): Sender
    requires s.stream.size < |s.stream.view|
  {
    s.(stream := s.stream.Add(0, Some(data), |data|),
       written := s.written + data[..s.stream.Fits(0, |data|)])
  }

  /** prvTCPAddTxData: the bytes past the mid marker go to the window. */
  function Hand(s: Sender, free: seq<nat>): Sender
    requires TxOk(s.tx, s.stream)
  {
    var r := s.stream;
    var length := r.size - r.mid;
    if length == 0 then s
    else
      var (u, _, k) := TxAdd(s.tx, length, Advance(r.tail, r.mid, |r.view|), |r.view|, free);
      s.(tx := u, stream := r.MoveMid(k))
  }

  /** prvTCPPrepareSend: the window chooses what goes out. */
  function Emit(s: Sender, window: uint32, expired: bool): Sender
    requires TxOk(s.tx, s.stream)
  {
    s.(tx := TxGet(s.tx, window, expired).0)
  }

  /** The bytes peeked from the stream for a segment: its position is taken to an offset from the
      tail first. */
  function Peek(r: Ring, position: nat, length: nat): seq<byte>
    requires r.tail < |r.view| && position < |r.view| && r.size <= |r.view|
  {
    var offset := StreamBuffers.Distance(|r.view|, r.tail, position);
    var got := Min(length, Max(r.size - offset, 0));
    if got > 0 then r.Contents()[offset..offset + got] else []
  }

  /** What goes out with Emit: a sequence number and bytes. */
  function Emitted(s: Sender, window: uint32, expired: bool): Option<(uint32, seq<byte>)>
    requires TxOk(s.tx, s.stream)
  {
    match TxGet(s.tx, window, expired)
    case (_, None) => None
    case (u, Some(m)) =>
      TxGetSends(s.tx, s.stream, window, expired);
      Some((u.ourSeq, Peek(s.stream, u.tiles[m].streamPos, u.tiles[m].length)))
  }

  /** The count the window returns moves the tail of the stream. */
  function Confirm(s: Sender, u: Tx, count: nat, report: Report): Sender
    requires s.stream.size <= s.stream.front && s.stream.size < |s.stream.view| && s.stream.tail < |s.stream.view|
  {
    var n := Min(count, s.stream.size);
    s.(tx := u, stream := s.stream.Drop(n), una := s.una + n, reports := s.reports + [report])
  }

  /** The part of prvHandleEstablished that takes an acknowledgement. */
  function Ack(s: Sender, ack: uint32): Sender
    requires TxOk(s.tx, s.stream)
  {
    var (u, count) := TxAck(s.tx, ack);
    Confirm(s, u, count, Report(0, s.una + Seq32.Distance(ack, s.tx.current)))
  }

  /** The part of prvCheckOptions that takes a selective acknowledgement. */
  function Sack(s: Sender, from: uint32, last: uint32): Sender
    requires TxOk(s.tx, s.stream)
  {
    var (u, count) := TxSack(s.tx, from, last);
    Confirm(s, u, count, SackReport(s, from, last))
  }

  /** The positions of a block, if its numbers are in order. */
  function SackReport(s: Sender, from: uint32, last: uint32): Report {
    var low := s.una + Seq32.Distance(from, s.tx.current);
    Report(low, if Less(from, last) then low + Sub(last, from) else low)
  }

  datatype Event =
    | Written(data: seq<byte>)
    | Handed(free: seq<nat>)
    | Sent(window: uint32, expired: bool)
    | Acked(number: uint32)
    | Sacked(from: uint32, last: uint32)

  function Next(s: Sender, e: Event): Sender
    requires TxOk(s.tx, s.stream)
  {
    match e
    case Written(data) => Write(s, data)
    case Handed(free) => Hand(s, free)
    case Sent(window, expired) => Emit(s, window, expired)
    case Acked(number) => Ack(s, number)
    case Sacked(from, last) => Sack(s, from, last)
  }

  /** Descriptors offered to the window are free ones, and the peer acknowledges nothing beyond
      the highest number sent. */
  ghost predicate Allowed(s: Sender, e: Event)
    requires TxOk(s.tx, s.stream)
  {
    match e
    case Written(_) => true
    case Handed(free) => Offered(s.tx.tiles, free)
    case Sent(_, _) => true
    case Acked(number) => LessOrEqual(number, s.tx.current) || Sub(number, s.tx.current) <= InFlight(s.tx)
    case Sacked(from, last) => BlockWithin(s.tx, from, last)
  }

  // ---- Writing --------------------------------------------------------------------------

  lemma WriteHolds(r: Ring, written: seq<byte>, una: nat, data: seq<byte>)
    requires Holds(r, written, una)
    ensures Holds(r.Add(0, Some(data), |data|), written + data[..r.Fits(0, |data|)], una)
    ensures var q := r.Add(0, Some(data), |data|);
      q.tail == r.tail && q.mid == r.mid && |q.view| == |r.view| && q.size >= r.size && q.Ok()
  {}

  /** The window sees tail, mid marker and size of the stream only. */
  lemma OtherRing(tx: Tx, r: Ring, q: Ring)
    requires TxOk(tx, r) && q.Ok()
    requires q.tail == r.tail && q.mid == r.mid && |q.view| == |r.view| && q.size >= r.size
    ensures TxOk(tx, q)
  {}

  lemma WriteStep(s: Sender, first: int, data: seq<byte>)
    requires InStep(s, first)
    ensures InStep(Write(s, data), first)
  {
    WriteHolds(s.stream, s.written, s.una, data);
    OtherRing(s.tx, s.stream, Write(s, data).stream);
    hide TxOk, Holds, Covered;
  }

  /** What is written goes to the end of the stream, as much of it as there is space for. */
  lemma WriteExact(s: Sender, data: seq<byte>)
    requires s.stream.Ok()
    ensures var k := Min(|data|, |s.stream.view| - 1 - s.stream.size);
      && Write(s, data).written == s.written + data[..k]
      && Write(s, data).stream.size <= |Write(s, data).stream.view|
      && Write(s, data).stream.Contents() == s.stream.Contents() + data[..k]
      && Write(s, data).una == s.una && Write(s, data).tx == s.tx
  {}

  // ---- Handing to the window ------------------------------------------------------------

  /** Adding data leaves the flags of the segments there alone, and adds none acknowledged. */
  ghost predicate Extends(before: seq<Tile>, after: seq<Tile>) {
    && |before| <= |after|
    && (forall i :: 0 <= i < |after| && after[i].acked ==>
          i < |before| && before[i].acked && after[i].seqNo == before[i].seqNo && after[i].length == before[i].length)
  }

  lemma {:induction false} GrowExtends(tx: Tx, left: uint32, position: nat, length: nat, free: seq<nat>)
    requires 0 < tx.mss && position < length && left <= length
    ensures Extends(tx.tiles, Grow(tx, left, position, length, free).0.tiles)
    ensures forall i :: 0 <= i < |tx.tiles| ==> Grow(tx, left, position, length, free).0.tiles[i] == tx.tiles[i]
    decreases left
  {
    if left != 0 && free != [] {
      var k := Min(left, tx.mss);
      GrowExtends(Append(tx, free[0], k, position), left - k, Advance(position, k, length), length, free[1..]);
    }
  }

  lemma FillExtends(tx: Tx, r: Ring, n: uint32)
    requires TxOk(tx, r)
    ensures Extends(tx.tiles, Fill(tx, n).0.tiles)
  {
    if tx.head.Some? {
      FillGrows(tx, r, n);
    }
  }

  lemma AddExtends(tx: Tx, r: Ring, n: uint32, free: seq<nat>)
    requires TxOk(tx, r) && n <= r.size - r.mid
    ensures Extends(tx.tiles, TxAdd(tx, n, Advance(r.tail, r.mid, |r.view|), |r.view|, free).0.tiles)
  {
    hide InPlace, Ordered, Queued, SentFirst, Grow, Fill;
    FillExtends(tx, r, n);
    var (u, k) := Fill(tx, n);
    GrowExtends(u, n - k, Advance(Advance(r.tail, r.mid, |r.view|), k, |r.view|), |r.view|, free);
  }

  lemma CoveredExtends(before: seq<Tile>, after: seq<Tile>, base: uint32, una: nat, reports: seq<Report>)
    requires Covered(before, base, una, reports) && Extends(before, after)
    ensures Covered(after, base, una, reports)
  {}

  lemma Replaced(s: Sender, first: int, u: Tx, q: Ring)
    requires InStep(s, first) && TxOk(u, q) && u.current == s.tx.current
    requires Holds(q, s.written, s.una) && Covered(u.tiles, u.current, s.una, s.reports)
    ensures InStep(s.(tx := u, stream := q), first)
  {
    hide TxOk, Holds, Covered;
  }

  lemma HandStep(s: Sender, first: int, free: seq<nat>)
    requires InStep(s, first) && Offered(s.tx.tiles, free)
    ensures InStep(Hand(s, free), first)
  {
    var r := s.stream;
    var n := r.size - r.mid;
    if n != 0 {
      hide Covered, Offered, Taken, Extends;
      var u, q, rest, k := TxAddOk(s.tx, r, n, free);
      AddExtends(s.tx, r, n, free);
      CoveredExtends(s.tx.tiles, u.tiles, s.tx.current, s.una, s.reports);
      MidMoves(r, k);
      HoldsSame(r, q, s.written, s.una);
      assert Hand(s, free) == s.(tx := u, stream := q);
      hide Hand, TxAdd;
      Replaced(s, first, u, q);
    }
  }

  lemma HoldsSame(r: Ring, q: Ring, written: seq<byte>, una: nat)
    requires Holds(r, written, una) && q.Ok() && q.view == r.view && q.size == r.size
    ensures Holds(q, written, una)
  {}

  // ---- Sending --------------------------------------------------------------------------

  lemma GetExtends(tx: Tx, r: Ring, window: uint32, expired: bool)
    requires TxOk(tx, r)
    ensures Extends(tx.tiles, TxGet(tx, window, expired).0.tiles)
    ensures TxGet(tx, window, expired).0.current == tx.current
  {
    hide InPlace, Ordered, Queued, Highest, HasSpace;
  }

  lemma EmitStep(s: Sender, first: int, window: uint32, expired: bool)
    requires InStep(s, first)
    ensures InStep(Emit(s, window, expired), first)
  {
    hide InPlace, Ordered, Queued, SentFirst, Extends, Covered, TxGet;
    var u := TxGetOk(s.tx, s.stream, window, expired);
    GetExtends(s.tx, s.stream, window, expired);
    CoveredExtends(s.tx.tiles, u.tiles, s.tx.current, s.una, s.reports);
    hide TxOk, Holds, Covered, TxGet;
  }

  // ---- Acknowledgements -----------------------------------------------------------------

  /** What has been reported stays reported. */
  ghost predicate More(reports: seq<Report>, after: seq<Report>) {
    forall p :: Reported(reports, p) ==> Reported(after, p)
  }

  lemma OneMore(reports: seq<Report>, report: Report)
    ensures More(reports, reports + [report])
    ensures forall p :: report.low <= p < report.high ==> Reported(reports + [report], p)
  {
    var after := reports + [report];
    forall p | Reported(reports, p) ensures Reported(after, p) {
      var k :| 0 <= k < |reports| && reports[k].low <= p < reports[k].high;
      assert after[k] == reports[k];
    }
    assert after[|reports|] == report;
  }

  /** Every position of a block counted from the left edge has been reported. */
  ghost predicate BlockReported(reports: seq<Report>, una: nat, from: nat, length: nat) {
    forall p :: una + from <= p < una + from + length ==> Reported(reports, p)
  }

  lemma CoveredMore(tiles: seq<Tile>, base: uint32, una: nat, reports: seq<Report>, after: seq<Report>)
    requires Covered(tiles, base, una, reports) && More(reports, after)
    ensures Covered(tiles, base, una, after)
  {}

  /** All segments that a block takes in are covered. */
  lemma TakenCovered(tx: Tx, r: Ring, first: uint32, last: uint32, una: nat, reports: seq<Report>)
    requires TxOk(tx, r) && BlockWithin(tx, first, last) && Covered(tx.tiles, tx.current, una, reports)
    requires var b := Acknowledged(tx, first, last);
      b.0 < b.1 ==> BlockReported(reports, una, Sub(first, tx.current), Sub(last, first))
    ensures var b := Acknowledged(tx, first, last);
      forall k :: b.0 <= k < b.1 ==> TileCovered(tx.tiles[k], tx.current, una, reports)
  {
    BlockTakesSent(tx, r, first, last);
    hide TxOk, BlockWithin, Acknowledged;
    var b := Acknowledged(tx, first, last);
    forall k | b.0 <= k < b.1 ensures TileCovered(tx.tiles[k], tx.current, una, reports) {
      if !tx.tiles[k].acked {
        assert Sub(first, tx.current) <= Rel(tx.tiles[k], tx.current);
      }
    }
  }

  lemma {:induction false} EdgeCovered(tiles: seq<Tile>, base: uint32, r: Ring, n: nat, una: nat, reports: seq<Report>)
    requires Tiling(tiles, base, r) && n <= |tiles|
    requires forall k :: 0 <= k < n ==> TileCovered(tiles[k], base, una, reports)
    ensures forall p :: una <= p < una + Edge(tiles, base, n) ==> Reported(reports, p)
    decreases n
  {
    EdgeAt(tiles, base, r, n);
    if n > 0 {
      EdgeCovered(tiles, base, r, n - 1, una, reports);
      EdgeAt(tiles, base, r, n - 1);
      assert TileCovered(tiles[n - 1], base, una, reports);
    }
  }

  /** Taking covered segments off the left. */
  lemma CoveredDrop(tiles: seq<Tile>, base: uint32, r: Ring, n: nat, una: nat, reports: seq<Report>)
    requires Tiling(tiles, base, r) && n <= |tiles| && Covered(tiles, base, una, reports)
    requires forall k :: 0 <= k < n ==> TileCovered(tiles[k], base, una, reports)
    ensures Covered(tiles[n..], Boundary(tiles, base, n), una + Edge(tiles, base, n), reports)
  {
    EdgeCovered(tiles, base, r, n, una, reports);
    var rest, base', una' := tiles[n..], Boundary(tiles, base, n), una + Edge(tiles, base, n);
    forall i | 0 <= i < |rest| && rest[i].acked ensures TileCovered(rest[i], base', una', reports) {
      var x := n + i;
      assert rest[i] == tiles[x];
      RelDrop(tiles, base, r, n, x);
      assert TileCovered(tiles[x], base, una, reports);
    }
  }

  /** Marking covered segments. */
  lemma CoveredMark(tiles: seq<Tile>, base: uint32, from: nat, end: nat, una: nat, reports: seq<Report>)
    requires from <= end <= |tiles| && Covered(tiles, base, una, reports)
    requires forall k :: from <= k < end ==> TileCovered(tiles[k], base, una, reports)
    ensures Covered(Marked(tiles, from, end), base, una, reports)
  {}

  lemma AcknowledgeCovered(tx: Tx, r: Ring, from: nat, end: nat, una: nat, reports: seq<Report>)
    requires TxOk(tx, r) && from <= end <= |tx.tiles| && Covered(tx.tiles, tx.current, una, reports)
    requires forall k :: from <= k < end ==> TileCovered(tx.tiles[k], tx.current, una, reports)
    ensures var u := Acknowledge(tx, from, end);
      Covered(u.tiles, u.current, una + if from == 0 then Edge(tx.tiles, tx.current, end) else 0, reports)
  {
    hide Covered, TileCovered, Reported;
    if from == 0 {
      CoveredDrop(tx.tiles, tx.current, r, end, una, reports);
    } else {
      CoveredMark(tx.tiles, tx.current, from, end, una, reports);
    }
  }

  /** A block moves the left edge over covered bytes only, and marks covered segments only. */
  lemma CheckAckCovered(tx: Tx, r: Ring, first: uint32, last: uint32, una: nat, reports: seq<Report>)
    requires TxOk(tx, r) && BlockWithin(tx, first, last) && Covered(tx.tiles, tx.current, una, reports)
    requires var b := Acknowledged(tx, first, last);
      b.0 < b.1 ==> BlockReported(reports, una, Sub(first, tx.current), Sub(last, first))
    ensures var (u, count) := CheckAck(tx, first, last);
      Covered(u.tiles, u.current, una + count, reports)
  {
    hide TxOk, BlockWithin, Acknowledged, BlockReported, Covered, TileCovered, Reported, Acknowledge;
    TakenCovered(tx, r, first, last, una, reports);
    var b := Acknowledged(tx, first, last);
    AcknowledgeCovered(tx, r, b.0, b.1, una, reports);
  }

  lemma DropHolds(r: Ring, written: seq<byte>, una: nat, n: nat)
    requires Holds(r, written, una) && n <= r.size
    ensures Holds(r.Drop(n), written, una + n)
  {}

  /** A window that has confirmed count bytes fits the stream without them. */
  ghost predicate Confirmed(s: Sender, u: Tx, count: nat, report: Report)
    requires s.stream.Ok()
  {
    true <==>
    && count <= s.stream.size && count < TWO31
    && u.current == Add(s.tx.current, count)
    && TxOk(u, s.stream.Drop(count))
    && Covered(u.tiles, u.current, s.una + count, s.reports + [report])
  }

  /** What the window confirms leaves the stream. */
  lemma ConfirmStep(s: Sender, first: int, u: Tx, count: nat, report: Report)
    requires InStep(s, first) && s.stream.Ok() && Confirmed(s, u, count, report)
    ensures InStep(Confirm(s, u, count, report), first)
  {
    hide InPlace, Ordered, QueuesOk, Covered;
    DropHolds(s.stream, s.written, s.una, count);
    WrapAdd(first + s.una, count);
    hide TxOk, Holds, Covered, Wrap, Add;
  }

  lemma InStepParts(s: Sender, first: int)
    requires InStep(s, first)
    ensures TxOk(s.tx, s.stream) && Covered(s.tx.tiles, s.tx.current, s.una, s.reports)
    ensures s.tx.current == Wrap(first + s.una)
    ensures s.stream.Ok() && s.una <= |s.written| && s.stream.Contents() == s.written[s.una..]
    ensures s.stream.mid <= s.stream.size && s.stream.mid < TWO31
  {}

  lemma AckReported(s: Sender, ack: uint32)
    requires !LessOrEqual(ack, s.tx.current)
    ensures var report := Report(0, s.una + Seq32.Distance(ack, s.tx.current));
      BlockReported(s.reports + [report], s.una, Sub(s.tx.current, s.tx.current), Sub(ack, s.tx.current))
  {
    OneMore(s.reports, Report(0, s.una + Seq32.Distance(ack, s.tx.current)));
  }

  lemma AckWithin(tx: Tx, ack: uint32)
    requires |tx.queue| <= |tx.tiles| && Sub(ack, tx.current) <= InFlight(tx)
    ensures BlockWithin(tx, tx.current, ack)
  {}

  lemma AckConfirmed(s: Sender, first: int, ack: uint32) returns (u: Tx, count: nat)
    requires InStep(s, first) && (LessOrEqual(ack, s.tx.current) || Sub(ack, s.tx.current) <= InFlight(s.tx))
    ensures s.stream.Ok() && (u, count) == TxAck(s.tx, ack)
    ensures Confirmed(s, u, count, Report(0, s.una + Seq32.Distance(ack, s.tx.current)))
  {
    hide InStep, Covered, More, BlockReported, BlockWithin, Acknowledged, CheckAck, LessOrEqual, QueuesOk, EdgesOk,
      Seq32.Distance;
    InStepParts(s, first);
    var tx, report := s.tx, Report(0, s.una + Seq32.Distance(ack, s.tx.current));
    OneMore(s.reports, report);
    CoveredMore(s.tx.tiles, tx.current, s.una, s.reports, s.reports + [report]);
    u, count := TxAck(tx, ack).0, TxAck(tx, ack).1;
    if LessOrEqual(ack, tx.current) {
      DropZero(s.stream);
      ConfirmNone(tx.current);
    } else {
      AckReported(s, ack);
      AckWithin(tx, ack);
      CheckAckOk(tx, s.stream, tx.current, ack);
      CheckAckCovered(tx, s.stream, tx.current, ack, s.una, s.reports + [report]);
    }
  }

  lemma ConfirmNone(a: uint32)
    ensures Add(a, 0) == a
  {}

  lemma AckStep(s: Sender, first: int, ack: uint32)
    requires InStep(s, first) && (LessOrEqual(ack, s.tx.current) || Sub(ack, s.tx.current) <= InFlight(s.tx))
    ensures InStep(Ack(s, ack), first)
  {
    var u, count := AckConfirmed(s, first, ack);
    hide InStep, Confirmed, TxAck;
    ConfirmStep(s, first, u, count, Report(0, s.una + Seq32.Distance(ack, s.tx.current)));
  }

  lemma FastRetransmitCovered(tx: Tx, from: uint32, una: nat, reports: seq<Report>)
    requires Covered(tx.tiles, tx.current, una, reports)
    ensures var u := FastRetransmit(tx, from); u.current == tx.current && Covered(u.tiles, tx.current, una, reports)
  {}

  lemma MidWithin(tx: Tx, r: Ring)
    requires TxOk(tx, r)
    ensures r.mid <= r.size && r.Ok()
  {}

  /** The window after a selective acknowledgement. */
  lemma SackWindow(tx: Tx, r: Ring, from: uint32, last: uint32, una: nat, reports: seq<Report>)
    returns (u: Tx, count: nat)
    requires TxOk(tx, r) && BlockWithin(tx, from, last) && Covered(tx.tiles, tx.current, una, reports)
    requires var b := Acknowledged(tx, from, last);
      b.0 < b.1 ==> BlockReported(reports, una, Sub(from, tx.current), Sub(last, from))
    ensures (u, count) == TxSack(tx, from, last)
    ensures count <= r.mid && u.current == Add(tx.current, count)
    ensures TxOk(u, r.Drop(count))
    ensures Covered(u.tiles, u.current, una + count, reports)
  {
    hide BlockWithin, Acknowledged, CheckAck, BlockReported, Covered, Reported, FastRetransmit, TxOk;
    MidWithin(tx, r);
    CheckAckOk(tx, r, from, last);
    CheckAckCovered(tx, r, from, last, una, reports);
    var v := CheckAck(tx, from, last);
    u, count := FastRetransmit(v.0, from), v.1;
    FastRetransmitOk(v.0, r.Drop(count), from);
    FastRetransmitCovered(v.0, from, una + count, reports);
  }

  lemma SackReported(s: Sender, from: uint32, last: uint32)
    requires TxOk(s.tx, s.stream) && BlockWithin(s.tx, from, last)
    ensures var b := Acknowledged(s.tx, from, last);
      b.0 < b.1 ==> BlockReported(s.reports + [SackReport(s, from, last)], s.una, Sub(from, s.tx.current),
        Sub(last, from))
  {
    OneMore(s.reports, SackReport(s, from, last));
    var b := Acknowledged(s.tx, from, last);
    if b.0 < b.1 {
      RelBound(s.tx.tiles, s.tx.current, s.stream, b.0);
    }
  }

  lemma SackConfirmed(s: Sender, first: int, from: uint32, last: uint32) returns (u: Tx, count: nat)
    requires InStep(s, first) && BlockWithin(s.tx, from, last)
    ensures s.stream.Ok() && (u, count) == TxSack(s.tx, from, last)
    ensures Confirmed(s, u, count, SackReport(s, from, last))
  {
    var reports := s.reports + [SackReport(s, from, last)];
    hide Acknowledged, BlockWithin, BlockReported, More, SackReport, Covered, Reported, TxSack;
    OneMore(s.reports, SackReport(s, from, last));
    SackReported(s, from, last);
    CoveredMore(s.tx.tiles, s.tx.current, s.una, s.reports, reports);
    u, count := SackWindow(s.tx, s.stream, from, last, s.una, reports);
  }

  lemma SackStep(s: Sender, first: int, from: uint32, last: uint32)
    requires InStep(s, first) && BlockWithin(s.tx, from, last)
    ensures InStep(Sack(s, from, last), first)
  {
    var u, count := SackConfirmed(s, first, from, last);
    hide InStep, Confirmed, TxSack, BlockWithin, SackReport;
    ConfirmStep(s, first, u, count, SackReport(s, from, last));
  }

  // ---- Every step -----------------------------------------------------------------------

  lemma StepKeeps(s: Sender, first: int, e: Event)
    requires InStep(s, first) && Allowed(s, e)
    ensures InStep(Next(s, e), first)
    ensures s.written <= Next(s, e).written && s.una <= Next(s, e).una
  {
    hide InStep, TxOk, TxAdd, TxGet;
    match e
    case Written(data) => WriteStep(s, first, data);
    case Handed(free) => HandStep(s, first, free);
    case Sent(window, expired) => EmitStep(s, first, window, expired);
    case Acked(number) => AckStep(s, first, number);
    case Sacked(from, last) => SackStep(s, first, from, last);
  }

  // ---- What goes out --------------------------------------------------------------------

  /** The position of a sequence number that is not left of the window. */
  function Position(s: Sender, seqNo: uint32): nat {
    s.una + Sub(seqNo, s.tx.current)
  }

  /** A segment (its sequence number and its bytes) carries the owner's bytes from position p on. */
  predicate Carries(segment: (uint32, seq<byte>), first: int, written: seq<byte>, p: nat) {
    && segment.0 == Wrap(first + p)
    && segment.1 != [] && p + |segment.1| <= |written|
    && segment.1 == written[p..p + |segment.1|]
  }

  lemma PeekAt(r: Ring, n: nat, length: nat)
    requires r.Ok() && 0 < length && n + length <= r.size
    ensures Peek(r, Advance(r.tail, n, |r.view|), length) == r.Contents()[n..n + length]
  {}

  lemma EmittedAt(s: Sender, window: uint32, expired: bool) returns (n: nat)
    requires TxOk(s.tx, s.stream) && Emitted(s, window, expired).Some?
    ensures var (seqNo, bytes) := Emitted(s, window, expired).value;
      && n == Sub(seqNo, s.tx.current) && bytes != [] && n + |bytes| <= s.stream.size <= |s.stream.view|
      && bytes == s.stream.Contents()[n..n + |bytes|]
  {
    hide InPlace, Ordered, Queued, SentFirst, Peek;
    TxGetSends(s.tx, s.stream, window, expired);
    var t := s.tx.tiles[TxGet(s.tx, window, expired).1.value];
    hide TxGet;
    n := Rel(t, s.tx.current);
    PeekAt(s.stream, n, t.length);
  }

  /** A segment, first sent or sent again, carries exactly the bytes that the owner wrote at its
      sequence number. */
  lemma EmittedIsWritten(s: Sender, first: int, window: uint32, expired: bool)
    requires InStep(s, first) && Emitted(s, window, expired).Some?
    ensures var segment := Emitted(s, window, expired).value;
      Carries(segment, first, s.written, Position(s, segment.0))
  {
    hide InStep, Holds, TxOk, Emitted, Wrap, Sub;
    InStepParts(s, first);
    var n := EmittedAt(s, window, expired);
    var (seqNo, bytes) := Emitted(s, window, expired).value;
    WrittenSlice(s.written, s.una, n, n + |bytes|);
    WrapDifference(first + s.una, seqNo);
  }

  lemma WrittenSlice(written: seq<byte>, una: nat, i: nat, j: nat)
    requires una <= |written| && i <= j <= |written| - una
    ensures written[una..][i..j] == written[una + i..una + j]
  {}

  lemma WrapDifference(n: int, a: uint32)
    ensures a == Wrap(n + Sub(a, Wrap(n)))
  {}

  // ---- Every run ------------------------------------------------------------------------

  ghost predicate StepOf(s: Sender, e: Event, s': Sender, first: int) {
    InStep(s, first) ==> Allowed(s, e) && s' == Next(s, e)
  }

  ghost predicate Run(states: seq<Sender>, events: seq<Event>, first: int) {
    && |states| == |events| + 1
    && forall i :: 0 <= i < |events| ==> StepOf(states[i], events[i], states[i + 1], first)
  }

  lemma StepOfKeeps(s: Sender, e: Event, s': Sender, first: int)
    requires InStep(s, first) && StepOf(s, e, s', first)
    ensures InStep(s', first) && s.written <= s'.written && s.una <= s'.una
  {
    hide Allowed, Next;
    StepKeeps(s, first, e);
  }

  /** The window and stream after the handshake: one number, that of the SYN, has been used. */
  function Start(first: int, length: nat, windowLength: uint32, mss: uint16, sendFullSize: bool): Sender {
    var next := Wrap(first);
    Sender(Tx(next, Sub(next, 1), next, next, windowLength, mss, sendFullSize, [], [], [], [], None),
           EmptyRing(length), [], 0, [])
  }

  lemma StartInStep(first: int, length: nat, windowLength: uint32, mss: uint16, sendFullSize: bool)
    requires 0 < mss && 0 < length <= TWO31
    ensures InStep(Start(first, length, windowLength, mss, sendFullSize), first)
  {}

  /** A run stays in step; what has been written stays, and the left edge only moves on. */
  lemma {:induction false} RunInStep(states: seq<Sender>, events: seq<Event>, first: int, i: nat, j: nat)
    requires Run(states, events, first) && i <= j < |states| && InStep(states[i], first)
    ensures InStep(states[j], first)
    ensures states[i].written <= states[j].written && states[i].una <= states[j].una
    decreases j - i
  {
    hide InStep, StepOf;
    if i < j {
      StepOfKeeps(states[i], events[i], states[i + 1], first);
      RunInStep(states, events, first, i + 1, j);
      PrefixTransitive(states[i].written, states[i + 1].written, states[j].written);
    }
  }

  lemma StillCarries(segment: (uint32, seq<byte>), first: int, written: seq<byte>, later: seq<byte>, p: nat)
    requires written <= later && Carries(segment, first, written, p)
    ensures Carries(segment, first, later, p)
  {}

  /** Integrity over every run: whatever segment was sent at step i carries the owner's bytes for
      its sequence number, as known at any later step j. */
  lemma Integrity(states: seq<Sender>, events: seq<Event>, first: int, i: nat, j: nat,
                  window: uint32, expired: bool, segment: (uint32, seq<byte>))
    returns (p: nat)
    requires Run(states, events, first) && InStep(states[0], first) && i < |events| && i <= j < |states|
    requires events[i] == Sent(window, expired)
    requires InStep(states[i], first) && Emitted(states[i], window, expired) == Some(segment)
    ensures Carries(segment, first, states[j].written, p)
  {
    EmittedIsWritten(states[i], first, window, expired);
    hide InStep, TxOk, Emitted, StepOf, Carries;
    p := Position(states[i], segment.0);
    RunInStep(states, events, first, i, j);
    StillCarries(segment, first, states[i].written, states[j].written, p);
  }

  /** Conservation over every run: what the owner has written is what has been confirmed followed
      by what the stream holds. */
  lemma Conservation(states: seq<Sender>, events: seq<Event>, first: int, j: nat)
    requires Run(states, events, first) && j < |states| && InStep(states[0], first)
    ensures var s := states[j];
      && s.stream.Ok() && s.una <= |s.written|
      && s.written == s.written[..s.una] + s.stream.Contents()
      && s.tx.current == Wrap(first + s.una)
  {
    RunInStep(states, events, first, 0, j);
  }

  /** The block that an event reports. */
  function ReportOf(s: Sender, e: Event): Option<Report> {
    match e
    case Acked(number) => Some(Report(0, s.una + Seq32.Distance(number, s.tx.current)))
    case Sacked(from, last) => Some(SackReport(s, from, last))
    case _ => None
  }

  ghost predicate Reports(s: Sender, e: Event, p: int) {
    match ReportOf(s, e)
    case None => false
    case Some(report) => report.low <= p < report.high
  }

  lemma {:induction false} ReportedBy(states: seq<Sender>, events: seq<Event>, first: int, j: nat, p: int)
    returns (k: nat)
    requires Run(states, events, first) && j < |states| && InStep(states[0], first)
    requires states[0].reports == [] && Reported(states[j].reports, p)
    ensures k < j && Reports(states[k], events[k], p)
    decreases j
  {
    hide InStep, Allowed, Next, Reports, Reported;
    NoneReported(p);
    if j == 0 {
      assert false;
    } else if Reported(states[j - 1].reports, p) {
      k := ReportedBy(states, events, first, j - 1, p);
    } else {
      RunInStep(states, events, first, 0, j - 1);
      InStepParts(states[j - 1], first);
      assert StepOf(states[j - 1], events[j - 1], states[j], first);
      NextReports(states[j - 1], events[j - 1], p);
      k := j - 1;
    }
  }

  lemma NoneReported(p: int)
    ensures !Reported([], p)
  {}

  lemma NextReports(s: Sender, e: Event, p: int)
    requires TxOk(s.tx, s.stream) && Reported(Next(s, e).reports, p)
    ensures Reported(s.reports, p) || Reports(s, e, p)
  {
    hide TxOk, TxAdd, TxGet, TxAck, TxSack;
    var reports := Next(s, e).reports;
    var k :| 0 <= k < |reports| && reports[k].low <= p < reports[k].high;
    if k < |s.reports| {
      assert s.reports[k] == reports[k];
    }
  }

  /** Safety over every run: the left edge has passed a position only if some acknowledgement or
      selective acknowledgement received before reported it. */
  lemma ConfirmedWasReported(states: seq<Sender>, events: seq<Event>, first: int, j: nat, p: nat) returns (k: nat)
    requires Run(states, events, first) && j < |states| && InStep(states[0], first)
    requires states[0].reports == [] && p < states[j].una
    ensures k < j && Reports(states[k], events[k], p)
  {
    RunInStep(states, events, first, 0, j);
    k := ReportedBy(states, events, first, j, p);
  }
}
