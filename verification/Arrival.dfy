/** Reception when any two segments of the peer are the same or have no byte in common: every
    arrival is then one the receiver can deal with, and what it holds it keeps
    (FreeRTOS_TCP_WIN.c, FreeRTOS_TCP_IP.c). */
module Arrival {
  import opened Common
  import opened Seq32
  import opened StreamBuffers
  import opened RxWindow
  import opened Reception

  /** A segment on its way: its number and bytes, and the position it was sent for. */
  datatype Packet = Packet(seqNo: uint32, data: seq<byte>, place: nat) {
    function End(): nat {
      place + |data|
    }
  }

  predicate SameOrApart(a: Packet, b: Packet) {
    (a.place == b.place && a.End() == b.End()) || a.End() <= b.place || b.End() <= a.place
  }

  /** Any two segments on their way are the same or have no byte in common. */
  ghost predicate Segmented(net: seq<Packet>) {
    && (forall i :: 0 <= i < |net| ==> net[i].data != [])
    && (forall i, j :: 0 <= i < |net| && 0 <= j < |net| ==> SameOrApart(net[i], net[j]))
  }

  /** The segment carries the bytes sent for its number. */
  predicate Genuine(q: Packet, sent: seq<byte>, first: int) {
    && 0 < |q.data| < 0x1_0000 && q.seqNo == Wrap(first + q.place)
    && q.End() <= |sent| && q.data == sent[q.place..q.End()]
  }

  /** The start, or a position where some segment ends. */
  ghost predicate Mark(net: seq<Packet>, x: nat) {
    x == 0 || exists i :: 0 <= i < |net| && net[i].End() == x
  }

  /** A stored segment is one that was sent. */
  ghost predicate Known(net: seq<Packet>, p: Piece, base: uint32, position: nat) {
    exists i :: 0 <= i < |net| && net[i].place == position + Offset(p, base) && |net[i].data| == p.length
  }

  ghost predicate AllKnown(net: seq<Packet>, list: seq<Piece>, base: uint32, position: nat) {
    forall k :: 0 <= k < |list| ==> Known(net, list[k], base, position)
  }

  /** Not so old, and not so far ahead, that its number would be taken for another position. */
  predicate Fresh(low: int, high: int, position: int) {
    -TWO31 < low - position && high - position < TWO31
  }

  /** The receiver has the byte at position p: handed over, readable, or remembered. */
  ghost predicate Has(c: Receiver, p: int) {
    0 <= p && (p < c.Position() || Held(c.rx.segments, c.rx.current, p - c.Position()))
  }

  /** The receiver's window is made of segments that were sent. */
  ghost predicate Aligned(c: Receiver, net: seq<Packet>) {
    true <==> Mark(net, c.Position()) && AllKnown(net, c.rx.segments, c.rx.current, c.Position())
  }

  // ---- Where a segment falls ------------------------------------------------------------

  lemma NoStraddle(net: seq<Packet>, q: Packet, x: nat)
    requires Mark(net, x) && q.data != [] && (forall i :: 0 <= i < |net| ==> SameOrApart(net[i], q))
    requires forall i :: 0 <= i < |net| ==> net[i].data != []
    ensures q.End() <= x || x <= q.place
  {}

  /** The numbers of a fresh segment, seen from the next expected number. */
  lemma FreshOffsets(first: int, position: int, place: int, length: nat)
    requires Fresh(place, place + length, position) && length < TWO31
    ensures var base := Wrap(first + position); var seqNo := Wrap(first + place);
      && Int32(Sub(seqNo, base)) == place - position
      && Int32(Sub(Add(seqNo, length), base)) == place + length - position
      && (seqNo == base <==> place == position)
      && (place >= position ==> Sub(seqNo, base) == place - position)
      && (place < position ==> Sub(seqNo, base) >= TWO31)
  {
    WrapAdd(first + place, length);
    SubWrap(first + place, first + position);
    SubWrap(first + place + length, first + position);
  }

  lemma SubWrap(n: int, m: int)
    requires -TWO32 < n - m < TWO32
    ensures Sub(Wrap(n), Wrap(m)) == if n >= m then n - m else n - m + TWO32
  {}

  /** An arriving segment is honest, and one the window can deal with. */
  lemma ArrivalAdmissible(c: Receiver, sent: seq<byte>, first: int, net: seq<Packet>, q: Packet, available: bool)
    requires Consistent(c, sent, first) && Stored(c.rx.segments, c.rx.current, 1, c.Space())
    requires Aligned(c, net) && q in net && Segmented(net) && Genuine(q, sent, first)
    requires Fresh(q.place, q.End(), c.Position())
    ensures Honest(c, sent, q.seqNo, q.data) && Admissible(c, q.seqNo, |q.data|, available)
  {
    hide Stored, Mark, Known, HeldInStream, Reassembled, Fresh, Chain, Sub, Add, Find, Wrap;
    FreshOffsets(first, c.Position(), q.place, |q.data|);
    NoStraddle(net, q, c.Position());
    if q.place == c.Position() {
      if |q.data| <= c.Space() {
        NothingBelow(c, net, q);
        BehindIsChain(c.rx.segments, c.rx.current, |q.data|, c.Space());
      }
    } else if q.End() <= c.Position() {
    } else if Find(c.rx.segments, q.seqNo).None? {
      AheadIsClear(c, net, q);
    }
  }

  /** No stored segment starts inside the expected one. */
  lemma NothingBelow(c: Receiver, net: seq<Packet>, q: Packet)
    requires c.Buffer().Ok() && Stored(c.rx.segments, c.rx.current, 1, c.Space())
    requires AllKnown(net, c.rx.segments, c.rx.current, c.Position())
    requires q.place == c.Position() && forall i :: 0 <= i < |net| ==> SameOrApart(net[i], q)
    ensures forall k :: 0 <= k < |c.rx.segments| ==> Offset(c.rx.segments[k], c.rx.current) >= |q.data|
  {}

  lemma AheadIsClear(c: Receiver, net: seq<Packet>, q: Packet)
    requires AllKnown(net, c.rx.segments, c.rx.current, c.Position())
    requires forall i :: 0 <= i < |net| ==> SameOrApart(net[i], q)
    requires q.place >= c.Position() && |q.data| < 0x1_0000
    requires Sub(q.seqNo, c.rx.current) == q.place - c.Position() < TWO31
    requires Find(c.rx.segments, q.seqNo).None?
    ensures Clear(c, q.seqNo, |q.data|)
  {}

  // ---- What an expected segment does ----------------------------------------------------

  /** If no stored segment starts inside it, the number moves to the end of the chain behind it. */
  lemma BehindIsChain(list: seq<Piece>, base: uint32, length: uint32, limit: nat)
    requires Stored(list, base, 1, limit) && length <= limit
    requires forall k :: 0 <= k < |list| ==> Offset(list[k], base) >= length
    ensures Lowest(list, base, Add(base, length)) == None
    ensures InOrderEnd(list, base, length, limit) == Chain(list, base, length, 1, limit) >= length
  {
    LowestIsLowest(list, 0, None, base, length, 1, limit);
  }

  /** A chain ends where it starts, or where a stored segment ends. */
  lemma {:induction false} ChainMark(list: seq<Piece>, base: uint32, x: nat, low: nat, limit: nat)
    requires Stored(list, base, low, limit) && x <= limit
    ensures var e := Chain(list, base, x, low, limit);
      e == x || exists i :: 0 <= i < |list| && End(list[i], base) == e
    decreases limit - x
  {
    FindOffset(list, base, x);
    var r := Find(list, Add(base, x));
    if r.Some? {
      assert Within(list[r.value], base, low, limit);
      ChainMark(list, base, x + list[r.value].length, low, limit);
      assert End(list[r.value], base) == x + list[r.value].length;
    }
  }

  /** What stays stored behind an expected segment. */
  lemma BehindStays(rx: Rx, length: uint32, limit: nat)
    requires Stored(rx.segments, rx.current, 1, limit) && 0 < length <= limit && rx.userDataLength == 0
    requires forall k :: 0 <= k < |rx.segments| ==> Offset(rx.segments[k], rx.current) >= length
    ensures var rest := InOrder(rx, length).segments;
      var e := Chain(rx.segments, rx.current, length, 1, limit);
      && Settled(rx.segments, rest, rx.current, length, e, limit)
      && forall y :: y >= e && Held(rx.segments, rx.current, y) ==> Held(rest, rx.current, y)
  {
    hide Settled, Lowest, InOrderEnd;
    var list, base := rx.segments, rx.current;
    var rest := InOrder(rx, length).segments;
    var e := Chain(list, base, length, 1, limit);
    BehindIsChain(list, base, length, limit);
    InOrderEffect(rx, length, limit);
    DrainIsChain(list, base, length, 1, limit);
    RestIsDrained(rx, length);
    forall y | y >= e && Held(list, base, y) ensures Held(rest, base, y) {
      BehindHeld(list, rest, base, length, limit, y);
    }
  }

  lemma RestIsDrained(rx: Rx, length: uint32)
    requires Lowest(rx.segments, rx.current, Add(rx.current, length)) == None
    ensures InOrder(rx, length).segments == Drain(rx.segments, Add(rx.current, length)).0
  {}

  lemma BehindHeld(list: seq<Piece>, rest: seq<Piece>, base: uint32, length: uint32, limit: nat, y: int)
    requires Stored(list, base, 1, limit) && length <= limit
    requires Drained(list, rest, base, length, Chain(list, base, length, 1, limit))
    requires y >= Chain(list, base, length, 1, limit) && Held(list, base, y)
    ensures Held(rest, base, y)
  {
    hide Chain;
    var k :| 0 <= k < |list| && Offset(list[k], base) <= y < End(list[k], base);
    if list[k] in rest {
      var m :| 0 <= m < |rest| && rest[m] == list[k];
    } else {
      ChainEncloses(list, base, length, 1, limit, k);
    }
  }

  // ---- What an arrival leaves -----------------------------------------------------------

  lemma KnownRebased(net: seq<Packet>, p: Piece, base: uint32, position: nat, e: nat)
    requires Known(net, p, base, position) && e <= Offset(p, base) < TWO31
    ensures Known(net, p, Add(base, e), position + e)
  {}

  lemma KnownMark(net: seq<Packet>, p: Piece, base: uint32, position: nat)
    requires Known(net, p, base, position)
    ensures Mark(net, position + End(p, base))
  {}

  lemma ChainIsMark(net: seq<Packet>, list: seq<Piece>, base: uint32, position: nat, x: nat, limit: nat)
    requires Stored(list, base, 1, limit) && x <= limit && AllKnown(net, list, base, position)
    requires Mark(net, position + x)
    ensures Mark(net, position + Chain(list, base, x, 1, limit))
  {
    hide Mark, Known;
    ChainMark(list, base, x, 1, limit);
    var e := Chain(list, base, x, 1, limit);
    if e != x {
      var i :| 0 <= i < |list| && End(list[i], base) == e;
      KnownMark(net, list[i], base, position);
    }
  }

  /** An expected segment that fits: the next position is again the end of a segment, what stays
      stored are segments that were sent, and no byte is lost. */
  lemma ExpectedKeeps(c: Receiver, sent: seq<byte>, first: int, net: seq<Packet>, q: Packet, available: bool,
                      memory: bool)
    requires Consistent(c, sent, first) && Stored(c.rx.segments, c.rx.current, 1, c.Space())
    requires Aligned(c, net) && q in net && Genuine(q, sent, first) && Segmented(net) && (c.stream.Some? || memory)
    requires q.seqNo == c.rx.current && q.place == c.Position() && |q.data| <= c.Space()
    ensures var c' := StoreRxData(c, q.seqNo, q.data, available, memory).0;
      && Aligned(c', net) && c'.rx.sack == None
      && forall p :: Has(c, p) ==> Has(c', p)
  {
    hide Consistent, Aligned, Mark, AllKnown, Segmented, Genuine, Has, Settled, Chain, InOrder, Stored, AfterInOrder;
    var c', e := ExpectedMoves(c, sent, first, net, q, available, memory);
    ExpectedAligned(c, net, q, c', e);
    forall p | Has(c, p) ensures Has(c', p) {
      ExpectedHas(c, c', e, |q.data|, p);
    }
  }

  /** The receiver after an expected segment that fits. */
  ghost predicate Moved(c: Receiver, c': Receiver, length: nat, e: nat)
    requires c.Buffer().Ok() && Stored(c.rx.segments, c.rx.current, 1, c.Space()) && length <= c.Space()
  {
    true <==>
    && e == Chain(c.rx.segments, c.rx.current, length, 1, c.Space())
    && c'.Position() == c.Position() + e && c'.rx.current == Add(c.rx.current, e)
    && Settled(c.rx.segments, c'.rx.segments, c.rx.current, length, e, c.Space())
    && forall y :: y >= e && Held(c.rx.segments, c.rx.current, y) ==> Held(c'.rx.segments, c.rx.current, y)
  }

  lemma ExpectedMoves(c: Receiver, sent: seq<byte>, first: int, net: seq<Packet>, q: Packet, available: bool,
                      memory: bool)
    returns (c': Receiver, e: nat)
    requires Consistent(c, sent, first) && Stored(c.rx.segments, c.rx.current, 1, c.Space())
    requires Aligned(c, net) && q in net && Genuine(q, sent, first) && Segmented(net) && (c.stream.Some? || memory)
    requires q.seqNo == c.rx.current && q.place == c.Position() && |q.data| <= c.Space()
    ensures c' == StoreRxData(c, q.seqNo, q.data, available, memory).0 && c.Buffer().Ok()
    ensures Moved(c, c', |q.data|, e) && c'.rx.sack == None
  {
    hide Known, Settled, Chain, HeldInStream, Held, Reassembled, InOrder, Stored, Lowest;
    SpaceFits(c);
    NothingBelow(c, net, q);
    var list, n := c.rx.segments, |q.data|;
    BehindIsChain(list, c.rx.current, n, c.Space());
    BehindStays(c.rx.(sack := None, userDataLength := 0), n, c.Space());
    InOrderEffect(c.rx.(sack := None, userDataLength := 0), n, c.Space());
    ExpectedIsDeposited(c, q.data, available, memory);
    InOrderExact(c, sent, first, q.data);
    InOrderSack(c.rx, n);
    c' := AfterInOrder(c, Accepted(c, n), q.data);
    e := InOrderEnd(list, c.rx.current, n, c.Space());
  }

  lemma InOrderSack(rx: Rx, length: uint32)
    ensures InOrder(rx.(sack := None, userDataLength := 0), length).sack == None
  {}

  lemma ExpectedAligned(c: Receiver, net: seq<Packet>, q: Packet, c': Receiver, e: nat)
    requires c.Buffer().Ok() && Stored(c.rx.segments, c.rx.current, 1, c.Space()) && |q.data| <= c.Space()
    requires Aligned(c, net) && q in net && q.place == c.Position() && Moved(c, c', |q.data|, e)
    ensures Aligned(c', net)
  {
    hide Known, Chain, Held, Mark;
    QIsMark(net, q);
    ChainIsMark(net, c.rx.segments, c.rx.current, c.Position(), |q.data|, c.Space());
    forall k | 0 <= k < |c'.rx.segments| ensures Known(net, c'.rx.segments[k], c'.rx.current, c'.Position()) {
      var i :| 0 <= i < |c.rx.segments| && c.rx.segments[i] == c'.rx.segments[k];
      assert Within(c.rx.segments[i], c.rx.current, 1, c.Space());
      KnownRebased(net, c.rx.segments[i], c.rx.current, c.Position(), e);
    }
  }

  lemma QIsMark(net: seq<Packet>, q: Packet)
    requires q in net
    ensures Mark(net, q.End())
  {}

  lemma ExpectedHas(c: Receiver, c': Receiver, e: nat, length: nat, p: int)
    requires c.Buffer().Ok() && Stored(c.rx.segments, c.rx.current, 1, c.Space()) && length <= c.Space()
    requires Moved(c, c', length, e) && Has(c, p)
    ensures Has(c', p)
  {
    hide Chain;
    if p >= c.Position() + e {
      var y := p - c.Position();
      assert Held(c'.rx.segments, c.rx.current, y);
      var list, base := c'.rx.segments, c.rx.current;
      var i :| 0 <= i < |list| && Offset(list[i], base) <= y < End(list[i], base);
      assert Within(c'.rx.segments[i], c.rx.current, 1, c.Space());
      Rebase(c'.rx.segments[i], c.rx.current, e);
      assert Offset(c'.rx.segments[i], c'.rx.current) <= y - e < End(c'.rx.segments[i], c'.rx.current);
    }
  }

  /** Any other arrival: nothing is remembered but the segment itself. */
  lemma OtherKeeps(c: Receiver, sent: seq<byte>, first: int, net: seq<Packet>, q: Packet, available: bool, memory: bool)
    requires Consistent(c, sent, first) && Stored(c.rx.segments, c.rx.current, 1, c.Space())
    requires Aligned(c, net) && q in net && Genuine(q, sent, first) && Segmented(net) && (c.stream.Some? || memory)
    requires Fresh(q.place, q.End(), c.Position()) && q.place != c.Position()
    ensures var c' := StoreRxData(c, q.seqNo, q.data, available, memory).0;
      && c'.Position() == c.Position() && c'.rx.current == c.rx.current
      && Aligned(c', net) && forall p :: Has(c, p) ==> Has(c', p)
  {
    hide Stored, Mark, Known, HeldInStream, Reassembled, Fresh, Chain, Sub, Add, Find, Wrap, Held, StoreRxData;
    FreshOffsets(first, c.Position(), q.place, |q.data|);
    NoStraddle(net, q, c.Position());
    OutOfOrderOutcome(c, sent, first, q.seqNo, q.data, available, memory);
    var c' := StoreRxData(c, q.seqNo, q.data, available, memory).0;
    if c'.rx.segments == c.rx.segments {
      SegmentsDiffer(c, q, c'.rx.sack);
    } else {
      assert q.place > c.Position();
      AheadPosition(c, q, c'.rx.sack);
      AheadKnown(c, net, q);
      forall p | Has(c, p) ensures Has(c', p) {
        HeldMore(c.rx.segments, Piece(q.seqNo, |q.data|), c.rx.current, p - c.Position());
      }
    }
  }

  lemma SegmentsDiffer(c: Receiver, q: Packet, sack: Option<Block>)
    requires c.Buffer().Ok() && |q.data| < 0x1_0000
    ensures AfterOutOfOrder(c, q.seqNo, q.data, sack).rx.segments != c.rx.segments
  {}

  lemma AheadPosition(c: Receiver, q: Packet, sack: Option<Block>)
    requires c.Buffer().Ok() && |q.data| < 0x1_0000 && 0 < Sub(q.seqNo, c.rx.current)
    ensures AfterOutOfOrder(c, q.seqNo, q.data, sack).Position() == c.Position()
  {}

  lemma AheadKnown(c: Receiver, net: seq<Packet>, q: Packet)
    requires c.Buffer().Ok() && AllKnown(net, c.rx.segments, c.rx.current, c.Position()) && q in net
    requires |q.data| < 0x1_0000 && q.place >= c.Position() && Sub(q.seqNo, c.rx.current) == q.place - c.Position()
    ensures AllKnown(net, c.rx.segments + [Piece(q.seqNo, |q.data|)], c.rx.current, c.Position())
  {}

  lemma HeldMore(list: seq<Piece>, p: Piece, base: uint32, y: int)
    ensures Held(list, base, y) ==> Held(list + [p], base, y)
  {
    if Held(list, base, y) {
      var i :| 0 <= i < |list| && Offset(list[i], base) <= y < End(list[i], base);
      assert (list + [p])[i] == list[i];
    }
  }

  /** An expected segment that does not fit is dropped. */
  lemma TooLongKeeps(c: Receiver, q: Packet, available: bool, memory: bool)
    requires c.Buffer().Ok() && Stored(c.rx.segments, c.rx.current, 1, c.Space())
    requires q.seqNo == c.rx.current && c.Space() < |q.data| < 0x1_0000
    ensures StoreRxData(c, q.seqNo, q.data, available, memory).0 == c.(rx := c.rx.(sack := None, userDataLength := 0))
  {}

  /** Whatever arrives, the receiver's window stays made of segments that were sent, and the
      receiver keeps every byte that it has. */
  lemma ArrivalKeeps(c: Receiver, sent: seq<byte>, first: int, net: seq<Packet>, q: Packet, available: bool,
                     memory: bool)
    requires Consistent(c, sent, first) && Stored(c.rx.segments, c.rx.current, 1, c.Space())
    requires Aligned(c, net) && q in net && Genuine(q, sent, first) && Segmented(net) && (c.stream.Some? || memory)
    requires Fresh(q.place, q.End(), c.Position())
    ensures var c' := StoreRxData(c, q.seqNo, q.data, available, memory).0;
      Aligned(c', net) && forall p :: Has(c, p) ==> Has(c', p)
  {
    hide Stored, Mark, AllKnown, HeldInStream, Reassembled, Chain, Sub, Find, Wrap, Held, StoreRxData, Segmented;
    FreshOffsets(first, c.Position(), q.place, |q.data|);
    if q.place != c.Position() {
      OtherKeeps(c, sent, first, net, q, available, memory);
    } else if |q.data| <= c.Space() {
      ExpectedKeeps(c, sent, first, net, q, available, memory);
    } else {
      TooLongKeeps(c, q, available, memory);
    }
  }

  // ---- Answers --------------------------------------------------------------------------

  /** What the receiver reports: the next expected number, and possibly a block; with the positions
      they stand for. */
  datatype Answer = Answer(number: uint32, sack: Option<Block>, place: nat, low: nat, high: nat)

  function AnswerOf(c: Receiver, q: Packet): Answer {
    Answer(c.rx.current, c.rx.sack, c.Position(), q.place,
           if c.rx.sack.Some? then q.place + Sub(c.rx.sack.value.last, c.rx.sack.value.first) else q.place)
  }

  /** The numbers of an answer stand for its positions, which are ends of segments. */
  ghost predicate Meant(a: Answer, first: int, net: seq<Packet>) {
    && a.number == Wrap(first + a.place) && Mark(net, a.place)
    && (a.sack.None? ==> a.low == a.high)
    && (a.sack.Some? ==>
          && a.sack.value == Block(Wrap(first + a.low), Wrap(first + a.high))
          && a.low < a.high < a.low + TWO31 && Mark(net, a.high))
  }

  /** The receiver has every byte that an answer reports. */
  ghost predicate Kept(a: Answer, c: Receiver) {
    forall p :: 0 <= p < a.place || a.low <= p < a.high ==> Has(c, p)
  }

  /** A chain that starts at a stored segment reaches its end. */
  lemma ChainReaches(list: seq<Piece>, base: uint32, x: nat, limit: nat, seqNo: uint32, n: nat)
    requires Stored(list, base, 1, limit) && x < limit && seqNo == Add(base, x)
    requires Find(list, seqNo).Some? && list[Find(list, seqNo).value].length == n
    ensures Chain(list, base, x, 1, limit) >= x + n
  {}

  lemma FoundLength(c: Receiver, net: seq<Packet>, q: Packet)
    requires c.Buffer().Ok() && Stored(c.rx.segments, c.rx.current, 1, c.Space())
    requires AllKnown(net, c.rx.segments, c.rx.current, c.Position()) && q in net && Segmented(net)
    requires q.place >= c.Position() && Sub(q.seqNo, c.rx.current) == q.place - c.Position()
    requires Find(c.rx.segments, q.seqNo).Some?
    ensures c.rx.segments[Find(c.rx.segments, q.seqNo).value].length == |q.data|
  {}

  /** A selective acknowledgement is honest: the receiver has the whole block. */
  lemma BlockTrue(c: Receiver, sent: seq<byte>, first: int, net: seq<Packet>, q: Packet, available: bool, memory: bool)
    requires Consistent(c, sent, first) && Stored(c.rx.segments, c.rx.current, 1, c.Space())
    requires Aligned(c, net) && q in net && Genuine(q, sent, first) && Segmented(net) && (c.stream.Some? || memory)
    requires Sub(q.seqNo, c.rx.current) == q.place - c.Position() < TWO31 && q.place > c.Position()
    requires StoreRxData(c, q.seqNo, q.data, available, memory).0.rx.sack.Some?
    ensures var c' := StoreRxData(c, q.seqNo, q.data, available, memory).0; var k := q.place - c.Position();
      var last := Sub(c'.rx.sack.value.last, c.rx.current);
      && c'.rx.sack.value.first == q.seqNo && k + |q.data| <= last < TWO31
      && Mark(net, c.Position() + last) && c'.Position() == c.Position() && c'.rx.current == c.rx.current
      && AllHeld(c'.rx.segments, c.rx.current, k, last)
  {
    hide Mark, AllKnown, HeldInStream, Reassembled, Chain, Wrap, Held, Segmented, AllHeld, StoreRxData;
    var k, list := q.place - c.Position(), c.rx.segments;
    AheadExact(c, sent, first, q.seqNo, q.data, available, memory);
    SackBlock(c, q.seqNo, q.data, available, memory);
    QIsMark(net, q);
    ChainIsMark(net, list, c.rx.current, c.Position(), k + |q.data|, c.Space());
    if Find(list, q.seqNo).Some? {
      FoundLength(c, net, q);
      ChainReaches(list, c.rx.current, k, c.Space(), q.seqNo, |q.data|);
    }
    OtherKeeps(c, sent, first, net, q, available, memory);
  }

  lemma BehindNoSack(c: Receiver, q: Packet, available: bool, memory: bool)
    requires c.Buffer().Ok() && Stored(c.rx.segments, c.rx.current, 1, c.Space()) && |q.data| < 0x1_0000
    requires q.seqNo != c.rx.current && Int32(Sub(Add(q.seqNo, |q.data|), c.rx.current)) <= 0
    ensures StoreRxData(c, q.seqNo, q.data, available, memory).0.rx.sack == None
  {}

  /** Only a segment ahead of the expected one is answered with a block. */
  lemma SackAhead(c: Receiver, sent: seq<byte>, first: int, net: seq<Packet>, q: Packet, available: bool, memory: bool)
    requires Consistent(c, sent, first) && Stored(c.rx.segments, c.rx.current, 1, c.Space())
    requires Aligned(c, net) && q in net && Genuine(q, sent, first) && Segmented(net) && (c.stream.Some? || memory)
    requires Fresh(q.place, q.End(), c.Position())
    requires StoreRxData(c, q.seqNo, q.data, available, memory).0.rx.sack.Some?
    ensures q.place > c.Position() && Sub(q.seqNo, c.rx.current) == q.place - c.Position() < TWO31
  {
    hide Stored, Mark, AllKnown, HeldInStream, Reassembled, Chain, Sub, Wrap, Add, StoreRxData;
    FreshOffsets(first, c.Position(), q.place, |q.data|);
    assert forall i :: 0 <= i < |net| ==> SameOrApart(net[i], q);
    NoStraddle(net, q, c.Position());
    if q.place == c.Position() {
      if |q.data| <= c.Space() {
        ExpectedKeeps(c, sent, first, net, q, available, memory);
      } else {
        TooLongKeeps(c, q, available, memory);
      }
    } else if q.End() <= c.Position() {
      BehindNoSack(c, q, available, memory);
    }
  }

  lemma AllHeldHas(c: Receiver, low: nat, high: nat)
    requires c.Position() <= low <= high
    requires AllHeld(c.rx.segments, c.rx.current, low - c.Position(), high - c.Position())
    ensures forall p :: low <= p < high ==> Has(c, p)
  {}

  /** The numbers of a block, from the offset of its end. */
  lemma BlockNumbers(first: int, position: nat, place: nat, b: Block, last: nat)
    requires b.first == Wrap(first + place) && Sub(b.last, Wrap(first + position)) == last
    requires position <= place < position + last && last < TWO31
    ensures b.last == Wrap(first + position + last)
    ensures place + Sub(b.last, b.first) == position + last
  {
    SubWrap(first + place, first + position);
    SubAdd(b.last, Wrap(first + position), last);
    WrapAdd(first + position, last);
    SubWrap(first + position + last, first + place);
  }

  lemma SubAdd(a: uint32, b: uint32, n: uint32)
    requires Sub(a, b) == n
    ensures a == Add(b, n)
  {}

  /** The answer to an arrival means what it says. */
  lemma AnswerTrue(c: Receiver, sent: seq<byte>, first: int, net: seq<Packet>, q: Packet, available: bool, memory: bool)
    requires Consistent(c, sent, first) && Stored(c.rx.segments, c.rx.current, 1, c.Space())
    requires Aligned(c, net) && q in net && Genuine(q, sent, first) && Segmented(net) && (c.stream.Some? || memory)
    requires Fresh(q.place, q.End(), c.Position())
    ensures var c' := StoreRxData(c, q.seqNo, q.data, available, memory).0;
      Meant(AnswerOf(c', q), first, net) && Kept(AnswerOf(c', q), c')
  {
    hide Stored, Mark, AllKnown, HeldInStream, Chain, Sub, Add, Find, Wrap, Held, StoreRxData, Segmented, AllHeld,
      Admissible, Fresh;
    var c' := StoreRxData(c, q.seqNo, q.data, available, memory).0;
    ArrivalKeeps(c, sent, first, net, q, available, memory);
    ArrivalAdmissible(c, sent, first, net, q, available);
    StepExact(c, sent, first, q.seqNo, q.data, available, memory);
    if c'.rx.sack.Some? {
      SackAhead(c, sent, first, net, q, available, memory);
      BlockTrue(c, sent, first, net, q, available, memory);
      var last := Sub(c'.rx.sack.value.last, c.rx.current);
      BlockNumbers(first, c.Position(), q.place, c'.rx.sack.value, last);
      AllHeldHas(c', q.place, c.Position() + last);
    }
  }
}
