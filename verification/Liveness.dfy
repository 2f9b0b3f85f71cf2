/** What keeps a connection from coming to a halt: the number of an acknowledgement never lies inside a
    block that has been reported, so that the segment at the sender's left edge is never one that is
    marked as acknowledged, and is sent again for as long as it takes. */
module Liveness {
  import opened Common
  import opened Seq32
  import opened StreamBuffers
  import opened TxWindow
  import opened Acknowledgement
  import opened Flight
  import opened Arrival
  import opened Connections
  import T = Transmission
  import R = Reception
  import W = RxWindow

  predicate Reports(a: Answer, p: int) {
    a.low <= p < a.high
  }

  /** No block reports the byte that some answer, or the first one, asks for. */
  ghost predicate Unmixed(answers: seq<Answer>) {
    && (forall i :: 0 <= i < |answers| ==> !Reports(answers[i], 0))
    && (forall i, j :: 0 <= i < |answers| && 0 <= j < |answers| ==> !Reports(answers[i], answers[j].place))
  }

  /** The left edge is where some answer, or the start, put it. */
  ghost predicate EdgeAnswered(answers: seq<Answer>, una: nat) {
    una == 0 || exists j :: 0 <= j < |answers| && answers[j].place == una
  }

  ghost predicate InBlock(answers: seq<Answer>, p: int) {
    exists i :: 0 <= i < |answers| && Reports(answers[i], p)
  }

  /** Whatever has been reported to the sender lies below its left edge or in a block. */
  ghost predicate ReportsKnown(reports: seq<T.Report>, answers: seq<Answer>, una: nat) {
    forall p :: T.Reported(reports, p) ==> p < una || InBlock(answers, p)
  }

  /** Something can be sent for the first time: without this, nothing ever fits (StuckAtZero). */
  predicate Primed(tx: Tx) {
    tx.current != 0 || tx.highest != Sub(tx.current, 1)
  }

  /** The stream has the length that belongs to its configured size. */
  predicate Sized(c: R.Receiver, streamSize: nat) {
    c.streamSize == streamSize && (c.stream.Some? ==> |c.stream.value.view| == StreamLength(streamSize))
  }

  ghost predicate Lively(x: Connection, first: int, mss: uint16, streamSize: nat) {
    true <==>
    && Good(x, first)
    && Unmixed(x.answers)
    && EdgeAnswered(x.answers, x.sender.una)
    && ReportsKnown(x.sender.reports, x.answers, x.sender.una)
    && Primed(x.sender.tx) && x.sender.tx.mss == mss && !x.sender.tx.sendFullSize
    && Sized(x.receiver, streamSize)
  }

  // ---- The left edge --------------------------------------------------------------------

  /** The segment at the left edge is not marked as acknowledged. */
  lemma LeftUnacked(x: Connection, first: int, mss: uint16, streamSize: nat)
    requires Lively(x, first, mss, streamSize) && x.sender.tx.tiles != []
    ensures !x.sender.tx.tiles[0].acked
  {
    hide TxOk, T.Holds, Short, NetOk, Segmented, ReceiverGood, AnswersGood, T.Reported;
    var s := x.sender;
    T.InStepParts(s, first);
    if s.tx.tiles[0].acked {
      LeftReported(s.tx, s.stream, s.una, s.reports);
    }
  }

  lemma LeftReported(tx: Tx, r: Ring, una: nat, reports: seq<T.Report>)
    requires TxOk(tx, r) && T.Covered(tx.tiles, tx.current, una, reports) && tx.tiles != [] && tx.tiles[0].acked
    ensures T.Reported(reports, una)
  {
    hide QueuesOk, T.Reported, Ordered;
    EdgeAt(tx.tiles, tx.current, r, 0);
    RelBound(tx.tiles, tx.current, r, 0);
    assert T.TileCovered(tx.tiles[0], tx.current, una, reports);
  }

  /** An acknowledgement moves the left edge exactly to its number, or not at all. */
  lemma AckMoves(s: T.Sender, net: seq<Packet>, first: int, a: Answer)
    requires SenderGood(s, net, first) && TxOk(s.tx, s.stream) && Meant(a, first, net) && Fresh(a.place, a.place, s.una)
    ensures var s' := T.Next(s, T.Acked(a.number)); s'.una == Max(s.una, a.place) && s'.tx.highest == s.tx.highest
  {
    hide TxOk, Short, Segmented, Genuine, Flown, T.Holds, T.Covered, Sub, Wrap, LessOrEqual, TxAck, InFlight;
    T.InStepParts(s, first);
    AckAllowed(s, net, first, a);
    AckNumbers(first, s.una, a.place);
    var u, count := T.AckConfirmed(s, first, a.number);
    AckHighest(s.tx, a.number);
    if a.place <= s.una {
      AckNothing(s.tx, a.number);
    } else {
      AckCount(s, net, first, a, u, count);
    }
  }

  lemma AckHighest(tx: Tx, ack: uint32)
    ensures TxAck(tx, ack).0.highest == tx.highest
  {}

  lemma AckNothing(tx: Tx, ack: uint32)
    requires LessOrEqual(ack, tx.current)
    ensures TxAck(tx, ack) == (tx, 0)
  {}

  lemma AckCount(s: T.Sender, net: seq<Packet>, first: int, a: Answer, u: Tx, count: nat)
    requires SenderGood(s, net, first) && TxOk(s.tx, s.stream) && Meant(a, first, net) && s.una < a.place
    requires Sub(a.number, s.tx.current) == a.place - s.una < TWO31
    requires (u, count) == TxAck(s.tx, a.number) && count < TWO31 && u.current == Add(s.tx.current, count)
    ensures count == a.place - s.una
  {
    hide Short, Segmented, Genuine, T.InStep, TxAck, QueuesOk, InPlace, Ordered, Sub, Add;
    var i :| 0 <= i < |net| && net[i].End() == a.place;
    assert FliesIn(s.tx.tiles, s.tx.current, s.una, net[i].place, |net[i].data|);
    var k :| 0 <= k < |s.tx.tiles| && Flies(s.tx.tiles[k], s.tx.current, s.una, net[i].place, |net[i].data|);
    EdgeAt(s.tx.tiles, s.tx.current, s.stream, k + 1);
    AckAtBoundary(s.tx, s.stream, k + 1);
    SubUnique(a.number, s.tx.current, a.place - s.una);
    AddUnique(s.tx.current, a.place - s.una, count);
  }

  lemma SubUnique(a: uint32, b: uint32, n: nat)
    requires Sub(a, b) == n < TWO32
    ensures a == Add(b, n)
  {}

  lemma AddUnique(b: uint32, n: nat, m: nat)
    requires n < TWO31 && m < TWO31 && Add(b, n) == Add(b, m)
    ensures n == m
  {}

  /** A selective acknowledgement that does not start at the left edge does not move it. */
  lemma SackStays(s: T.Sender, net: seq<Packet>, first: int, a: Answer)
    requires SenderGood(s, net, first) && TxOk(s.tx, s.stream) && Meant(a, first, net)
    requires a.sack.Some? && Fresh(a.low, a.high, s.una) && a.low != s.una
    ensures var s' := T.Next(s, T.Sacked(a.sack.value.first, a.sack.value.last));
      s'.una == s.una && s'.tx.current == s.tx.current && s'.tx.highest == s.tx.highest
  {
    hide TxOk, Short, Segmented, Genuine, Flown, T.Holds, T.Covered, Sub, Wrap, Less, Fresh, CheckAck, Mark;
    T.InStepParts(s, first);
    SackNumbers(first, s.una, a.low, a.high);
    SackElsewhere(s.tx, s.stream, a.sack.value.first, a.sack.value.last);
  }

  lemma SackElsewhere(tx: Tx, r: Ring, from: uint32, last: uint32)
    requires TxOk(tx, r) && Sub(from, tx.current) != 0
    ensures var (u, count) := CheckAck(tx, from, last);
      count == 0 && u.current == tx.current && u.highest == tx.highest
  {
    hide QueuesOk, InPlace, Ordered, Less, Greater;
    EdgeAt(tx.tiles, tx.current, r, 0);
  }

  // ---- Every step -----------------------------------------------------------------------

  /** Once something has been sent, the highest number sent is not below the left edge. */
  lemma SentPrimed(tx: Tx, r: Ring)
    requires TxOk(tx, r) && tx.Sent() > 0
    ensures Primed(tx) && tx.highest == Add(tx.current, InFlight(tx))
  {
    hide QueuesOk, InPlace, Ordered;
    EdgeAt(tx.tiles, tx.current, r, tx.Sent());
  }

  lemma ReportMore(reports: seq<T.Report>, report: T.Report, answers: seq<Answer>, una: nat, una': nat)
    requires ReportsKnown(reports, answers, una) && una <= una'
    requires forall p :: report.low <= p < report.high ==> p < una' || InBlock(answers, p)
    ensures ReportsKnown(reports + [report], answers, una')
  {
    hide InBlock;
    forall p | T.Reported(reports + [report], p) ensures p < una' || InBlock(answers, p) {
      var k :| 0 <= k < |reports| + 1 && (reports + [report])[k].low <= p < (reports + [report])[k].high;
      if k < |reports| {
        assert reports[k] == (reports + [report])[k];
        assert T.Reported(reports, p);
      }
    }
  }

  lemma {:induction false} GrowEdges(tx: Tx, left: uint32, position: nat, length: nat, free: seq<nat>)
    requires 0 < tx.mss && position < length && left <= length
    ensures var u := Grow(tx, left, position, length, free).0; u.current == tx.current && u.highest == tx.highest
    decreases left
  {
    if left != 0 && free != [] {
      var k := Min(left, tx.mss);
      GrowEdges(Append(tx, free[0], k, position), left - k, Advance(position, k, length), length, free[1..]);
    }
  }

  lemma AddPrimed(s: T.Sender, free: seq<nat>)
    requires TxOk(s.tx, s.stream) && Primed(s.tx)
    ensures Primed(T.Hand(s, free).tx)
  {
    hide QueuesOk, InPlace, Ordered, Grow;
    var r := s.stream;
    var n := r.size - r.mid;
    if n != 0 {
      var (u, k) := Fill(s.tx, n);
      GrowEdges(u, n - k, Advance(Advance(r.tail, r.mid, |r.view|), k, |r.view|), |r.view|, free);
    }
  }

  lemma GetPrimed(s: T.Sender, window: uint32, expired: bool)
    requires TxOk(s.tx, s.stream) && Primed(s.tx)
    ensures Primed(T.Emit(s, window, expired).tx)
  {
    hide TxOk, Primed, TxGet;
    var u := TxGetOk(s.tx, s.stream, window, expired);
    var sent := GetHighest(s.tx, s.stream, window, expired);
    if sent {
      SentPrimed(u, s.stream);
    } else {
      SamePrimed(s.tx, u);
    }
  }

  lemma SamePrimed(tx: Tx, u: Tx)
    requires Primed(tx) && u.current == tx.current && u.highest == tx.highest
    ensures Primed(u)
  {}

  /** A transmission changes the highest number sent only if it is the first of its segment. */
  lemma GetHighest(tx: Tx, r: Ring, window: uint32, expired: bool) returns (sent: bool)
    requires TxOk(tx, r)
    ensures var u := TxGet(tx, window, expired).0;
      && |u.queue| <= |u.tiles|
      && if sent then u.Sent() > 0 else u.current == tx.current && u.highest == tx.highest
  {
    hide InPlace, Ordered, Queued, SentFirst, Highest;
    sent := TxGet(tx, window, expired).0.highest != tx.highest || TxGet(tx, window, expired).0.current != tx.current;
  }

  lemma StepSizes(s: T.Sender, first: int, e: T.Event)
    requires T.InStep(s, first) && TxOk(s.tx, s.stream) && T.Allowed(s, e)
    ensures var u := T.Next(s, e).tx; u.mss == s.tx.mss && u.sendFullSize == s.tx.sendFullSize
  {
    hide T.InStep, TxOk, T.Next, T.Allowed, FliesIn, Short;
    StepLasts(s, first, e);
  }

  /** The sender's own steps, and those that take nothing in, leave left edge and reports alone. */
  lemma OwnStepLively(s: T.Sender, first: int, e: T.Event)
    requires T.InStep(s, first) && TxOk(s.tx, s.stream) && T.Allowed(s, e) && Primed(s.tx)
    requires e.Written? || e.Handed? || e.Sent?
    ensures var s' := T.Next(s, e);
      && s'.una == s.una && s'.reports == s.reports && Primed(s'.tx)
      && s'.tx.mss == s.tx.mss && s'.tx.sendFullSize == s.tx.sendFullSize
  {
    hide T.InStep, TxOk, TxGet, T.Allowed, Primed, TxAdd;
    StepSizes(s, first, e);
    match e
    case Written(data) =>
    case Handed(free) => AddPrimed(s, free);
    case Sent(window, expired) => GetPrimed(s, window, expired);
  }

  /** Taking an acknowledgement. */
  lemma AckLively(s: T.Sender, net: seq<Packet>, answers: seq<Answer>, first: int, k: nat)
    requires SenderGood(s, net, first) && TxOk(s.tx, s.stream) && Primed(s.tx) && k < |answers|
    requires Meant(answers[k], first, net) && Fresh(answers[k].place, answers[k].place, s.una)
    requires EdgeAnswered(answers, s.una) && ReportsKnown(s.reports, answers, s.una)
    ensures T.Allowed(s, T.Acked(answers[k].number))
    ensures var s' := T.Next(s, T.Acked(answers[k].number));
      && EdgeAnswered(answers, s'.una) && ReportsKnown(s'.reports, answers, s'.una)
      && Primed(s'.tx) && s'.tx.mss == s.tx.mss && s'.tx.sendFullSize == s.tx.sendFullSize
  {
    hide SenderGood, TxOk, T.Next, T.Allowed, Mark, Fresh, T.Reported, InBlock, Primed;
    var a := answers[k];
    var s' := T.Next(s, T.Acked(a.number));
    SenderParts(s, net, first);
    AckAllowed(s, net, first, a);
    AckMoves(s, net, first, a);
    SenderLives(s, T.Acked(a.number), net, first);
    SenderParts(s', net, first);
    StepSizes(s, first, T.Acked(a.number));
    ReportMore(s.reports, T.Report(0, a.place), answers, s.una, s'.una);
    EdgePrimed(s, s', net, first, a.place);
  }

  lemma SenderParts(s: T.Sender, net: seq<Packet>, first: int)
    requires SenderGood(s, net, first)
    ensures T.InStep(s, first) && TxOk(s.tx, s.stream) && NetOk(s, net, first) && Segmented(net) && Short(s.tx)
    ensures s.tx.current == Wrap(first + s.una)
  {
    hide TxOk, T.Holds, T.Covered, Segmented, Short;
  }

  /** The left edge has moved to a number that has been sent. */
  lemma EdgePrimed(s: T.Sender, s': T.Sender, net: seq<Packet>, first: int, place: nat)
    requires TxOk(s.tx, s.stream) && Primed(s.tx) && NetOk(s, net, first) && Mark(net, place)
    requires s.tx.current == Wrap(first + s.una) && s'.tx.current == Wrap(first + s'.una)
    requires s'.una == Max(s.una, place) && s'.tx.highest == s.tx.highest
    ensures Primed(s'.tx)
  {
    hide TxOk, NetOk, Mark, Wrap;
    MarkSent(s, net, first, place);
    if s'.una != s.una {
      SentSome(s.tx, s.stream);
      SentPrimed(s.tx, s.stream);
      InFlightBound(s.tx, s.stream);
      EdgeBelow(first + s.una, first + s'.una, InFlight(s.tx));
    }
  }

  lemma SentSome(tx: Tx, r: Ring)
    requires TxOk(tx, r) && InFlight(tx) > 0
    ensures tx.Sent() > 0
  {
    hide QueuesOk, InPlace, Ordered;
    EdgeAt(tx.tiles, tx.current, r, 0);
  }

  lemma InFlightBound(tx: Tx, r: Ring)
    requires TxOk(tx, r)
    ensures |tx.queue| <= |tx.tiles| && InFlight(tx) < TWO31
  {
    hide QueuesOk, InPlace, Ordered;
    EdgeAt(tx.tiles, tx.current, r, tx.Sent());
  }

  lemma EdgeBelow(n: int, m: int, k: nat)
    requires n < m <= n + k && k < TWO31
    ensures Add(Wrap(n), k) != Sub(Wrap(m), 1) || Wrap(m) != 0
  {}

  /** Taking a selective acknowledgement. */
  lemma SackLively(s: T.Sender, net: seq<Packet>, answers: seq<Answer>, first: int, k: nat)
    requires SenderGood(s, net, first) && TxOk(s.tx, s.stream) && Primed(s.tx) && k < |answers|
    requires Meant(answers[k], first, net) && answers[k].sack.Some? && Fresh(answers[k].low, answers[k].high, s.una)
    requires Unmixed(answers) && EdgeAnswered(answers, s.una) && ReportsKnown(s.reports, answers, s.una)
    ensures var e := T.Sacked(answers[k].sack.value.first, answers[k].sack.value.last);
      && T.Allowed(s, e)
      && var s' := T.Next(s, e);
      && EdgeAnswered(answers, s'.una) && ReportsKnown(s'.reports, answers, s'.una)
      && Primed(s'.tx) && s'.tx.mss == s.tx.mss && s'.tx.sendFullSize == s.tx.sendFullSize
  {
    hide SenderGood, TxOk, T.Next, T.Allowed, Fresh, T.Reported, Mark;
    var a := answers[k];
    var e := T.Sacked(a.sack.value.first, a.sack.value.last);
    SenderParts(s, net, first);
    SackAllowed(s, net, first, a);
    NotAtEdge(answers, s.una, k);
    SackStays(s, net, first, a);
    StepSizes(s, first, e);
    forall p | a.low <= p < a.high ensures InBlock(answers, p) {
      assert Reports(answers[k], p);
    }
    ReportMore(s.reports, T.Report(a.low, a.high), answers, s.una, s.una);
  }

  lemma NotAtEdge(answers: seq<Answer>, una: nat, k: nat)
    requires Unmixed(answers) && EdgeAnswered(answers, una) && k < |answers| && answers[k].low < answers[k].high
    ensures answers[k].low != una
  {
    if answers[k].low == una {
      assert Reports(answers[k], una);
    }
  }

  // ---- The receiver's steps -------------------------------------------------------------

  /** The byte at the next expected position is not there. */
  lemma ExpectedMissing(c: R.Receiver, sent: seq<byte>, first: int)
    requires R.Consistent(c, sent, first)
    ensures (c.stream.Some? ==> c.stream.value.size < |c.stream.value.view|) && !Has(c, c.Position())
  {
    hide R.HeldInStream, R.Reassembled;
    forall i | 0 <= i < |c.rx.segments| ensures W.Offset(c.rx.segments[i], c.rx.current) > 0 {
      assert W.Within(c.rx.segments[i], c.rx.current, 1, c.Buffer().Space());
    }
  }

  /** A new answer asks for a byte in no block, and reports nothing that was asked for before. */
  lemma AnswerUnmixed(answers: seq<Answer>, a: Answer, c: R.Receiver, c': R.Receiver, sent: seq<byte>, first: int)
    requires R.Consistent(c, sent, first) && R.Consistent(c', sent, first) && c.Position() <= c'.Position()
    requires Unmixed(answers) && AnswersKept(answers, c) && AnswersKept(answers, c') && Kept(a, c')
    requires a.place == c'.Position() && (a.low < a.high ==> c'.Position() < a.low)
    ensures Unmixed(answers + [a])
  {
    hide R.Consistent, Has;
    ExpectedMissing(c, sent, first);
    ExpectedMissing(c', sent, first);
    forall i | 0 <= i < |answers|
      ensures answers[i].place <= c'.Position()
      ensures !Reports(answers[i], a.place) && !Reports(a, answers[i].place)
    {
      assert Kept(answers[i], c');
    }
  }

  lemma DepositSized(c: R.Receiver, offset: int, data: seq<byte>, memory: bool, streamSize: nat)
    requires c.Buffer().size < |c.Buffer().view| && Sized(c, streamSize)
    ensures Sized(R.Deposit(c, offset, data, memory).0, streamSize)
  {}

  lemma ReceiveSized(c: R.Receiver, n: nat, streamSize: nat)
    requires (c.stream.Some? ==> c.stream.value.Ok()) && Sized(c, streamSize)
    ensures Sized(R.Receive(c, n), streamSize)
  {}

  /** Where the answer to an arrival reports from, and that it asks for nothing from before. */
  lemma ArrivalAnswers(c: R.Receiver, sent: seq<byte>, first: int, net: seq<Packet>, q: Packet, available: bool,
                       memory: bool)
    requires R.Consistent(c, sent, first) && W.Stored(c.rx.segments, c.rx.current, 1, c.Space())
    requires Aligned(c, net) && q in net && Genuine(q, sent, first) && Segmented(net) && (c.stream.Some? || memory)
    requires Fresh(q.place, q.End(), c.Position())
    ensures var c' := R.StoreRxData(c, q.seqNo, q.data, available, memory).0;
      && R.Consistent(c', sent, first) && c.Position() <= c'.Position()
      && var a := AnswerOf(c', q); a.place == c'.Position() && (a.low < a.high ==> c'.Position() < a.low)
  {
    hide W.Stored, Mark, AllKnown, R.HeldInStream, R.Reassembled, R.Admissible, R.StoreRxData, Segmented, Fresh, Sub;
    var c' := R.StoreRxData(c, q.seqNo, q.data, available, memory).0;
    ArrivalAdmissible(c, sent, first, net, q, available);
    R.StepExact(c, sent, first, q.seqNo, q.data, available, memory);
    R.StepForward(c, sent, first, q.seqNo, q.data, available, memory);
    if c'.rx.sack.Some? {
      SackAhead(c, sent, first, net, q, available, memory);
      OtherKeeps(c, sent, first, net, q, available, memory);
    }
  }

  lemma StoreSized(c: R.Receiver, seqNo: uint32, data: seq<byte>, available: bool, memory: bool, streamSize: nat)
    requires c.Buffer().size < |c.Buffer().view| && |data| < 0x1_0000 && Sized(c, streamSize)
    requires W.Stored(c.rx.segments, c.rx.current, 1, c.Space())
    ensures Sized(R.StoreRxData(c, seqNo, data, available, memory).0, streamSize)
  {
    hide W.Stored, W.Check, R.Deposit;
    if data != [] {
      var v := W.Check(c.rx, seqNo, |data|, c.Space(), available);
      DepositSized(c.(rx := v.0), v.1, data, memory, streamSize);
    }
  }

  lemma AnswersGrow(answers: seq<Answer>, a: Answer, reports: seq<T.Report>, una: nat)
    requires EdgeAnswered(answers, una) && ReportsKnown(reports, answers, una)
    ensures EdgeAnswered(answers + [a], una) && ReportsKnown(reports, answers + [a], una)
  {
    hide T.Reported;
    var more := answers + [a];
    if una != 0 {
      var j :| 0 <= j < |answers| && answers[j].place == una;
      assert more[j] == answers[j];
    }
    forall p | T.Reported(reports, p) && p >= una ensures InBlock(more, p) {
      var i :| 0 <= i < |answers| && Reports(answers[i], p);
      assert more[i] == answers[i];
    }
  }

  /** The receiver after an arrival: the pool of answers stays unmixed. */
  lemma ArriveUnmixed(x: Connection, k: nat, available: bool, memory: bool, x': Connection, first: int)
    requires Good(x, first) && Step(x, Arrive(k, available, memory), x', first) && Good(x', first) && Unmixed(x.answers)
    ensures x'.receiver.failed ==> x' == x.(receiver := x'.receiver)
    ensures !x'.receiver.failed ==>
      && k < |x.net| && x'.answers == x.answers + [AnswerOf(x'.receiver, x.net[k])] && Unmixed(x'.answers)
      && x.receiver.Position() <= x'.receiver.Position()
  {
    hide SenderGood, R.StoreRxData, W.Stored, R.HeldInStream, R.Reassembled, Meant, Fresh, Unmixed, Backed, Kept;
    Usable(x, first);
    Usable(x', first);
    var c, c', q := x.receiver, x'.receiver, x.net[k];
    if !c'.failed {
      var a := AnswerOf(c', q);
      NetFacts(x, first);
      if c.stream.Some? || memory {
        ArrivalAnswers(c, x.sender.written, first, x.net, q, available, memory);
      } else {
        ArrivalAdmissible(c, x.sender.written, first, x.net, q, available);
        NoMemoryDrops(c, x.sender.written, first, q, available);
      }
      KeptParts(x.answers, a, c');
      AnswerUnmixed(x.answers, a, c, c', x.sender.written, first);
    } else {
      assert x.answers + [] == x.answers;
    }
  }

  lemma NetFacts(x: Connection, first: int)
    requires Good(x, first)
    ensures Segmented(x.net) && (forall i :: 0 <= i < |x.net| ==> Genuine(x.net[i], x.sender.written, first))
    ensures !x.receiver.failed ==>
      && (x.receiver.stream.Some? ==> x.receiver.stream.value.size < |x.receiver.stream.value.view|)
      && Aligned(x.receiver, x.net) && AnswersKept(x.answers, x.receiver)
  {
    hide T.InStep, Short, Segmented, Genuine, Flown, AnswersOk, AnswersKept, Backed, Aligned;
    Usable(x, first);
  }

  lemma KeptParts(answers: seq<Answer>, a: Answer, c: R.Receiver)
    requires (c.stream.Some? ==> c.stream.value.size < |c.stream.value.view|) && AnswersKept(answers + [a], c)
    ensures AnswersKept(answers, c) && Kept(a, c)
  {
    hide Kept;
    assert (answers + [a])[|answers|] == a;
    forall i | 0 <= i < |answers| ensures Kept(answers[i], c) {
      assert (answers + [a])[i] == answers[i];
    }
  }

  // ---- Every run ------------------------------------------------------------------------

  /** What the steps of the sender leave alone, and what they change. */
  lemma SenderStepLively(x: Connection, e: T.Event, net: seq<Packet>, x': Connection, first: int, mss: uint16,
                         streamSize: nat)
    requires Lively(x, first, mss, streamSize) && TxOk(x.sender.tx, x.sender.stream) && T.Allowed(x.sender, e)
    requires e.Written? || e.Handed? || e.Sent?
    requires x' == x.(sender := T.Next(x.sender, e), net := net) && Good(x', first)
    ensures Lively(x', first, mss, streamSize)
  {
    hide TxOk, T.Next, T.Allowed, Good, Unmixed, EdgeAnswered, ReportsKnown, Primed, Sized;
    GoodSender(x, first);
    OwnStepLively(x.sender, first, e);
  }

  lemma GoodSender(x: Connection, first: int)
    requires Good(x, first)
    ensures T.InStep(x.sender, first) && SenderGood(x.sender, x.net, first) && TxOk(x.sender.tx, x.sender.stream)
    ensures forall i :: 0 <= i < |x.answers| ==> Meant(x.answers[i], first, x.net)
  {
    hide T.InStep, TxOk, Short, NetOk, Segmented, ReceiverGood, AnswersKept, Backed, Meant;
    SenderParts(x.sender, x.net, first);
  }

  lemma ReceiverStepLively(x: Connection, e: Event, x': Connection, first: int, mss: uint16, streamSize: nat)
    requires Lively(x, first, mss, streamSize) && Step(x, e, x', first) && Good(x', first) && (e.Arrive? || e.Read?)
    ensures Lively(x', first, mss, streamSize)
  {
    hide Good, Unmixed, EdgeAnswered, ReportsKnown, Primed, Sized, R.StoreRxData, R.Receive, W.Stored, Fresh;
    Usable(x, first);
    match e
    case Arrive(k, available, memory) =>
      ArriveUnmixed(x, k, available, memory, x', first);
      StoreSized(x.receiver, x.net[k].seqNo, x.net[k].data, available, memory, streamSize);
      if !x'.receiver.failed {
        AnswersGrow(x.answers, AnswerOf(x'.receiver, x.net[k]), x.sender.reports, x.sender.una);
      }
    case Read(n) => ReceiveSized(x.receiver, n, streamSize);
  }

  lemma StepLively(x: Connection, e: Event, x': Connection, first: int, mss: uint16, streamSize: nat)
    requires Lively(x, first, mss, streamSize) && Step(x, e, x', first)
    ensures Lively(x', first, mss, streamSize)
  {
    hide Good, Unmixed, EdgeAnswered, ReportsKnown, Primed, Sized, TxOk, T.Next, T.Allowed, R.StoreRxData, R.Receive,
      W.Stored, R.Consistent, Fresh, Sending;
    StepGood(x, e, x', first);
    Usable(x, first);
    GoodSender(x, first);
    match e
    case Write(data) =>
      WriteAllowed(x.sender, data);
      SenderStepLively(x, T.Written(data), x.net, x', first, mss, streamSize);
    case Hand(free) => SenderStepLively(x, T.Handed(free), x.net, x', first, mss, streamSize);
    case Transmit(window, expired) =>
      SendAllowed(x.sender, window, expired);
      SenderStepLively(x, T.Sent(window, expired), x'.net, x', first, mss, streamSize);
    case Arrive(k, available, memory) => ReceiverStepLively(x, e, x', first, mss, streamSize);
    case Read(n) => ReceiverStepLively(x, e, x', first, mss, streamSize);
    case TakeAck(k) => AckLively(x.sender, x.net, x.answers, first, k);
    case TakeSack(k) => SackLively(x.sender, x.net, x.answers, first, k);
  }

  lemma WriteAllowed(s: T.Sender, data: seq<byte>)
    requires TxOk(s.tx, s.stream)
    ensures T.Allowed(s, T.Written(data))
  {}

  lemma SendAllowed(s: T.Sender, window: uint32, expired: bool)
    requires TxOk(s.tx, s.stream)
    ensures T.Allowed(s, T.Sent(window, expired))
  {}

  /** A connection whose first number is not 0 starts lively. */
  lemma StartLively(first: int, length: nat, windowLength: uint32, mss: uint16, streamSize: nat)
    requires 0 < mss && 0 < length <= TWO31 && StreamLength(streamSize) <= TWO31 && Wrap(first) != 0
    ensures Lively(Start(first, length, windowLength, mss, false, streamSize), first, mss, streamSize)
  {
    hide Good;
    StartGood(first, length, windowLength, mss, false, streamSize);
  }

  lemma {:induction false} RunLively(states: seq<Connection>, events: seq<Event>, first: int, mss: uint16,
                                     streamSize: nat, i: nat)
    requires Run(states, events, first) && i < |states| && Lively(states[0], first, mss, streamSize)
    ensures Lively(states[i], first, mss, streamSize)
    decreases i
  {
    hide Lively, Step;
    if i > 0 {
      RunLively(states, events, first, mss, streamSize, i - 1);
      LivelyGood(states[i - 1], first, mss, streamSize);
      assert StepOf(states[i - 1], events[i - 1], states[i], first);
      StepLively(states[i - 1], events[i - 1], states[i], first, mss, streamSize);
    }
  }

  lemma LivelyGood(x: Connection, first: int, mss: uint16, streamSize: nat)
    requires Lively(x, first, mss, streamSize)
    ensures Good(x, first)
  {
    hide Good;
  }

  /** Over every run, the segment at the left edge of the window is not one that is marked as
      acknowledged: it is queued, and will be sent or sent again. */
  lemma LeftEdgeQueued(states: seq<Connection>, events: seq<Event>, first: int, mss: uint16, streamSize: nat, i: nat)
    requires Run(states, events, first) && i < |states| && Lively(states[0], first, mss, streamSize)
    ensures var tx := states[i].sender.tx;
      tx.tiles != [] ==> !tx.tiles[0].acked && tx.tiles[0].id in tx.priority + tx.queue + tx.waiting
  {
    hide Lively;
    RunLively(states, events, first, mss, streamSize, i);
    var x := states[i];
    LivelyGood(x, first, mss, streamSize);
    Usable(x, first);
    if x.sender.tx.tiles != [] {
      LeftUnacked(x, first, mss, streamSize);
      UnackedQueued(x.sender.tx, x.sender.stream, 0);
    }
  }

  /** A segment that is not acknowledged is in one of the three queues. */
  lemma UnackedQueued(tx: Tx, r: Ring, i: nat)
    requires TxOk(tx, r) && i < |tx.tiles| && !tx.tiles[i].acked
    ensures |tx.queue| <= |tx.tiles|
    ensures if i < tx.Sent() then tx.tiles[i].id in tx.priority || tx.tiles[i].id in tx.waiting
            else tx.queue[i - tx.Sent()] == tx.tiles[i].id
    ensures tx.tiles[i].id in tx.priority + tx.queue + tx.waiting
  {
    hide InPlace, Ordered, Highest;
    if i < tx.Sent() {
      assert Pending(tx.tiles, tx.Sent(), tx.tiles[i].id);
    } else {
      assert tx.queue[i - tx.Sent()] in tx.queue;
    }
  }
}
