/** The window's own limit, over every run: it never grows, and once a segment has been sent four times
    it is at most two segments (ulTCPWindowTxGet in FreeRTOS_TCP_WIN.c). */
module Backoff {
  import opened Common
  import opened Seq32
  import opened StreamBuffers
  import opened TxWindow
  import opened Transmission
  import Packing

  const MANY: byte := 4

  /** As long as some segment of the window has been sent four times, since it was first sent or last
      retransmitted fast, the limit is two segments at most. */
  ghost predicate Limited(tx: Tx) {
    forall k :: 0 <= k < |tx.tiles| && tx.tiles[k].transmitCount >= MANY ==> tx.windowLength <= 2 * tx.mss
  }

  /** No limit grows, and segments keep their size. */
  predicate Narrower(tx: Tx, u: Tx) {
    u.windowLength <= tx.windowLength && u.mss == tx.mss
  }

  lemma GetLimited(tx: Tx, r: Ring, window: uint32, expired: bool)
    requires TxOk(tx, r) && Limited(tx)
    ensures var u := TxGet(tx, window, expired).0; Limited(u) && Narrower(tx, u)
  {
    hide QueuesOk, EdgesOk, TxGet;
    Packing.FlightCounts(tx, r);
    Packing.GetShape(tx, window, expired);
    GetExact(tx, r, window, expired);
    if TxGet(tx, window, expired).1.Some? {
      TransmissionCounted(tx, r, window, expired);
    }
  }

  lemma CheckLimited(tx: Tx, first: uint32, last: uint32)
    requires Limited(tx)
    ensures var u := CheckAck(tx, first, last).0; Limited(u) && Narrower(tx, u)
  {
    hide Acknowledged, Unlinked, Boundary;
  }

  lemma FastLimited(tx: Tx, first: uint32)
    requires Limited(tx)
    ensures var u := FastRetransmit(tx, first); Limited(u) && Narrower(tx, u)
  {
    hide Select;
  }

  lemma FillLimited(tx: Tx, n: uint32)
    requires Limited(tx)
    ensures var u := Fill(tx, n).0; Limited(u) && u.windowLength == tx.windowLength && u.mss == tx.mss
  {}

  lemma {:induction false} GrowLimited(tx: Tx, left: uint32, position: nat, length: nat, free: seq<nat>)
    requires 0 < tx.mss && position < length && left <= length && Limited(tx)
    ensures var u := Grow(tx, left, position, length, free).0;
      Limited(u) && u.windowLength == tx.windowLength && u.mss == tx.mss
    decreases left
  {
    if left != 0 && free != [] {
      var k := Min(left, tx.mss);
      GrowLimited(Append(tx, free[0], k, position), left - k, Advance(position, k, length), length, free[1..]);
    }
  }

  lemma HandLimited(s: Sender, free: seq<nat>)
    requires TxOk(s.tx, s.stream) && Limited(s.tx)
    ensures var u := Hand(s, free).tx; Limited(u) && Narrower(s.tx, u)
  {
    hide TxOk, Limited, TxAdd, Fill, Grow;
    RingFits(s.tx, s.stream);
    var r := s.stream;
    if r.size > r.mid {
      var n, position := r.size - r.mid, Advance(r.tail, r.mid, |r.view|);
      AddIs(s.tx, n, position, |r.view|, free);
      FillLimited(s.tx, n);
      var (u, k) := Fill(s.tx, n);
      GrowLimited(u, n - k, Advance(position, k, |r.view|), |r.view|, free);
    }
  }

  lemma StepLimited(s: Sender, e: Event)
    requires TxOk(s.tx, s.stream) && Limited(s.tx)
    ensures var u := Next(s, e).tx; Limited(u) && Narrower(s.tx, u)
  {
    hide TxOk, Limited, TxGet, TxAdd, CheckAck, FastRetransmit, LessOrEqual;
    match e
    case Written(data) =>
    case Handed(free) => HandLimited(s, free);
    case Sent(window, expired) => GetLimited(s.tx, s.stream, window, expired);
    case Acked(number) =>
      if !LessOrEqual(number, s.tx.current) {
        CheckLimited(s.tx, s.tx.current, number);
      }
    case Sacked(from, last) =>
      CheckLimited(s.tx, from, last);
      FastLimited(CheckAck(s.tx, from, last).0, from);
  }

  /** Over every run the limit never grows, and while a segment has been sent four times it is two
      segments at most. */
  lemma {:induction false} RunLimited(states: seq<Sender>, events: seq<Event>, first: int, i: nat, j: nat)
    requires Run(states, events, first) && i <= j < |states| && InStep(states[i], first) && Limited(states[i].tx)
    ensures Limited(states[j].tx) && Narrower(states[i].tx, states[j].tx) && InStep(states[j], first)
    decreases j
  {
    hide InStep, Limited, Next, Allowed;
    if i < j {
      RunLimited(states, events, first, i, j - 1);
      var s, e := states[j - 1], events[j - 1];
      assert StepOf(s, e, states[j], first);
      InStepParts(s, first);
      StepLimited(s, e);
      StepKeeps(s, first, e);
    }
  }

  lemma StartLimited(first: int, length: nat, windowLength: uint32, mss: uint16, sendFullSize: bool)
    ensures Limited(Start(first, length, windowLength, mss, sendFullSize).tx)
  {}
}
