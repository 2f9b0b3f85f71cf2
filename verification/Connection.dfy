/** Both ends of one direction of a connection, and the network between them. The network may lose,
    duplicate, delay and reorder segments and acknowledgements; it delivers nothing so late that its
    numbers would be taken for others. Nothing else is asked of it. */
module Connections {
  import opened Common
  import opened Seq32
  import opened StreamBuffers
  import opened TxWindow
  import opened Flight
  import opened Arrival
  import T = Transmission
  import R = Reception
  import W = RxWindow

  /** Everything that has been sent stays in the network. */
  datatype Connection = Connection(sender: T.Sender, receiver: R.Receiver, net: seq<Packet>, answers: seq<Answer>)

  // ---- What holds in every state --------------------------------------------------------

  /** What is on its way is what the sender's owner wrote, cut as it was first sent. */
  ghost predicate NetOk(s: T.Sender, net: seq<Packet>, first: int) {
    forall i :: 0 <= i < |net| ==> Genuine(net[i], s.written, first) && Flown(s, net[i].place, |net[i].data|)
  }

  ghost predicate AnswersOk(answers: seq<Answer>, first: int, net: seq<Packet>) {
    forall i :: 0 <= i < |answers| ==> Meant(answers[i], first, net)
  }

  ghost predicate AnswersKept(answers: seq<Answer>, c: R.Receiver) {
    forall i :: 0 <= i < |answers| ==> Kept(answers[i], c)
  }

  /** The receiver has whatever has been reported to the sender. */
  ghost predicate Backed(reports: seq<T.Report>, c: R.Receiver) {
    forall p :: T.Reported(reports, p) ==> Has(c, p)
  }

  ghost predicate SenderGood(s: T.Sender, net: seq<Packet>, first: int) {
    true <==> T.InStep(s, first) && Short(s.tx) && NetOk(s, net, first) && Segmented(net)
  }

  ghost predicate ReceiverGood(c: R.Receiver, net: seq<Packet>, written: seq<byte>, first: int) {
    true <==> R.Sound(c, written, first) && (!c.failed ==> Aligned(c, net))
  }

  ghost predicate AnswersGood(answers: seq<Answer>, reports: seq<T.Report>, c: R.Receiver, net: seq<Packet>,
                              first: int) {
    true <==>
    && AnswersOk(answers, first, net)
    && (!c.failed ==> AnswersKept(answers, c) && Backed(reports, c))
  }

  ghost predicate Good(x: Connection, first: int) {
    true <==>
    && SenderGood(x.sender, x.net, first)
    && ReceiverGood(x.receiver, x.net, x.sender.written, first)
    && AnswersGood(x.answers, x.sender.reports, x.receiver, x.net, first)
  }

  // ---- Steps ----------------------------------------------------------------------------

  datatype Event =
    | Write(data: seq<byte>)
    | Hand(free: seq<nat>)
    | Transmit(window: uint32, expired: bool)
    | Arrive(k: nat, available: bool, memory: bool)
    | Read(n: nat)
    | TakeAck(k: nat)
    | TakeSack(k: nat)

  /** One event at either end. A closed receiver gets no more segments. */
  ghost predicate Step(x: Connection, e: Event, x': Connection, first: int)
    requires Good(x, first)
  {
    Usable(x, first);
    match e
    case Write(data) => x' == x.(sender := T.Next(x.sender, T.Written(data)))
    case Hand(free) =>
      T.Allowed(x.sender, T.Handed(free)) && x' == x.(sender := T.Next(x.sender, T.Handed(free)))
    case Transmit(window, expired) =>
      x' == x.(sender := T.Next(x.sender, T.Sent(window, expired)), net := x.net + Sending(x.sender, window, expired))
    case Arrive(k, available, memory) =>
      && k < |x.net| && !x.receiver.failed && Fresh(x.net[k].place, x.net[k].End(), x.receiver.Position())
      && var c' := R.StoreRxData(x.receiver, x.net[k].seqNo, x.net[k].data, available, memory).0;
      x' == x.(receiver := c', answers := x.answers + if c'.failed then [] else [AnswerOf(c', x.net[k])])
    case Read(n) => x' == x.(receiver := R.Receive(x.receiver, n))
    case TakeAck(k) =>
      && k < |x.answers| && Fresh(x.answers[k].place, x.answers[k].place, x.sender.una)
      && x' == x.(sender := T.Next(x.sender, T.Acked(x.answers[k].number)))
    case TakeSack(k) =>
      && k < |x.answers| && x.answers[k].sack.Some?
      && Fresh(x.answers[k].low, x.answers[k].high, x.sender.una)
      && var b := x.answers[k].sack.value;
      x' == x.(sender := T.Next(x.sender, T.Sacked(b.first, b.last)))
  }

  /** The segment that goes out, if any. */
  function Sending(s: T.Sender, window: uint32, expired: bool): seq<Packet>
    requires TxOk(s.tx, s.stream)
  {
    match T.Emitted(s, window, expired)
    case None => []
    case Some(segment) => [Packet(segment.0, segment.1, T.Position(s, segment.0))]
  }

  lemma Usable(x: Connection, first: int)
    requires Good(x, first)
    ensures TxOk(x.sender.tx, x.sender.stream) && T.InStep(x.sender, first)
    ensures x.receiver.stream.Some? ==> x.receiver.stream.value.Ok()
    ensures !x.receiver.failed ==>
      && x.receiver.Buffer().Ok()
      && W.Stored(x.receiver.rx.segments, x.receiver.rx.current, 1, x.receiver.Space())
      && R.Consistent(x.receiver, x.sender.written, first)
    ensures forall i :: 0 <= i < |x.net| ==> Genuine(x.net[i], x.sender.written, first)
  {
    hide Short, Segmented, Aligned, AnswersGood;
    T.InStepParts(x.sender, first);
    if !x.receiver.failed {
      R.StoredInSpace(x.receiver, x.sender.written, first);
    }
  }

  // ---- The sender's steps ---------------------------------------------------------------

  lemma GenuineMore(q: Packet, sent: seq<byte>, more: seq<byte>, first: int)
    requires Genuine(q, sent, first) && sent <= more
    ensures Genuine(q, more, first)
  {}

  /** Whatever the sender does, what is on its way stays what the owner wrote. */
  lemma SenderLives(s: T.Sender, e: T.Event, net: seq<Packet>, first: int)
    requires SenderGood(s, net, first) && TxOk(s.tx, s.stream) && T.Allowed(s, e)
    ensures SenderGood(T.Next(s, e), net, first)
    ensures s.written <= T.Next(s, e).written && s.una <= T.Next(s, e).una
  {
    hide T.InStep, T.Next, T.Allowed, Short, Segmented, TxOk, Genuine, Flown;
    T.StepKeeps(s, first, e);
    ShortLasts(s, first, e);
    var s' := T.Next(s, e);
    forall i | 0 <= i < |net| ensures Genuine(net[i], s'.written, first) && Flown(s', net[i].place, |net[i].data|) {
      GenuineMore(net[i], s.written, s'.written, first);
      FlownLasts(s, first, e, net[i].place, |net[i].data|);
    }
  }

  lemma ShortLasts(s: T.Sender, first: int, e: T.Event)
    requires T.InStep(s, first) && TxOk(s.tx, s.stream) && T.Allowed(s, e) && Short(s.tx)
    ensures Short(T.Next(s, e).tx)
  {
    hide T.InStep, T.Next, T.Allowed, Short, TxOk, FliesIn;
    StepLasts(s, first, e);
  }

  /** The owner writes more, and the receiver's view of it stays right. */
  lemma WrittenMore(c: R.Receiver, net: seq<Packet>, written: seq<byte>, more: seq<byte>, first: int)
    requires ReceiverGood(c, net, written, first) && written <= more
    ensures ReceiverGood(c, net, more, first)
  {}

  /** Writing, and handing bytes to the window. */
  lemma OwnStep(x: Connection, e: T.Event, first: int)
    requires Good(x, first) && TxOk(x.sender.tx, x.sender.stream) && (e.Written? || e.Handed?) && T.Allowed(x.sender, e)
    ensures Good(x.(sender := T.Next(x.sender, e)), first)
  {
    hide SenderGood, ReceiverGood, TxOk, TxAdd, T.Allowed, AnswersOk, AnswersKept, Backed;
    SenderLives(x.sender, e, x.net, first);
    WrittenMore(x.receiver, x.net, x.sender.written, T.Next(x.sender, e).written, first);
  }

  // ---- A segment goes out ---------------------------------------------------------------

  lemma SegmentedMore(net: seq<Packet>, q: Packet)
    requires Segmented(net) && q.data != [] && forall i :: 0 <= i < |net| ==> SameOrApart(net[i], q)
    ensures Segmented(net + [q])
  {}

  lemma MarkMore(net: seq<Packet>, q: seq<Packet>, x: nat)
    requires Mark(net, x)
    ensures Mark(net + q, x)
  {
    if x != 0 {
      var i :| 0 <= i < |net| && net[i].End() == x;
      assert (net + q)[i] == net[i];
    }
  }

  lemma AlignedMore(c: R.Receiver, net: seq<Packet>, q: seq<Packet>)
    requires (c.stream.Some? ==> c.stream.value.size < |c.stream.value.view|) && Aligned(c, net)
    ensures Aligned(c, net + q)
  {
    hide Mark;
    MarkMore(net, q, c.Position());
    var list, base := c.rx.segments, c.rx.current;
    forall k | 0 <= k < |list| ensures Known(net + q, list[k], base, c.Position()) {
      assert Known(net, list[k], base, c.Position());
      var i :| 0 <= i < |net| && net[i].place == c.Position() + W.Offset(list[k], base)
        && |net[i].data| == list[k].length;
      assert (net + q)[i] == net[i];
    }
  }

  lemma AnswersMore(answers: seq<Answer>, first: int, net: seq<Packet>, q: seq<Packet>)
    requires AnswersOk(answers, first, net)
    ensures AnswersOk(answers, first, net + q)
  {
    hide Mark;
    forall i | 0 <= i < |answers| ensures Meant(answers[i], first, net + q) {
      assert Meant(answers[i], first, net);
      MarkMore(net, q, answers[i].place);
      if answers[i].sack.Some? {
        MarkMore(net, q, answers[i].high);
      }
    }
  }

  /** What goes out carries what the owner wrote, and is the same as, or apart from, whatever went
      out before. */
  lemma SentNew(s: T.Sender, window: uint32, expired: bool, net: seq<Packet>, first: int)
    requires SenderGood(s, net, first) && TxOk(s.tx, s.stream) && T.Emitted(s, window, expired).Some?
    ensures SenderGood(T.Next(s, T.Sent(window, expired)), net + Sending(s, window, expired), first)
  {
    hide T.InStep, Short, Segmented, TxOk, Genuine, Flown, FliesIn, T.Emitted, T.Emit, SameOrApart;
    SenderLives(s, T.Sent(window, expired), net, first);
    var s' := T.Next(s, T.Sent(window, expired));
    var q := SentGenuine(s, window, expired, first);
    T.InStepParts(s', first);
    forall i | 0 <= i < |net| ensures SameOrApart(net[i], q) {
      FlownSameOrApart(s', net[i], q);
    }
    SegmentedMore(net, q);
  }

  lemma FlownSameOrApart(s: T.Sender, a: Packet, q: Packet)
    requires TxOk(s.tx, s.stream) && Flown(s, a.place, |a.data|)
    requires FliesIn(s.tx.tiles, s.tx.current, s.una, q.place, |q.data|)
    ensures SameOrApart(a, q)
  {
    hide TxOk, Flown, FliesIn;
    FlownApart(s, a.place, |a.data|, q.place, |q.data|);
  }

  lemma SentGenuine(s: T.Sender, window: uint32, expired: bool, first: int) returns (q: Packet)
    requires T.InStep(s, first) && Short(s.tx) && TxOk(s.tx, s.stream) && T.Emitted(s, window, expired).Some?
    ensures Sending(s, window, expired) == [q]
    ensures var s' := T.Emit(s, window, expired);
      && Genuine(q, s'.written, first) && q.data != []
      && Flown(s', q.place, |q.data|) && FliesIn(s'.tx.tiles, s'.tx.current, s'.una, q.place, |q.data|)
  {
    hide T.InStep, Short, TxOk, FliesIn, T.Emitted, TxGet, T.Position;
    q := Sending(s, window, expired)[0];
    T.EmittedIsWritten(s, first, window, expired);
    EmittedFlies(s, first, window, expired);
    var s' := T.Emit(s, window, expired);
    T.EmitStep(s, first, window, expired);
    T.InStepParts(s', first);
    ShortLasts(s, first, T.Sent(window, expired));
    FlightWithin(s', q.place, |q.data|);
  }

  lemma TransmitStep(x: Connection, window: uint32, expired: bool, first: int)
    requires Good(x, first) && TxOk(x.sender.tx, x.sender.stream)
    ensures Good(x.(sender := T.Next(x.sender, T.Sent(window, expired)),
                    net := x.net + Sending(x.sender, window, expired)), first)
  {
    hide SenderGood, R.Sound, TxOk, TxGet, T.Emitted, AnswersOk, AnswersKept, Backed, Aligned;
    var q := Sending(x.sender, window, expired);
    if T.Emitted(x.sender, window, expired).Some? {
      SentNew(x.sender, window, expired, x.net, first);
    } else {
      SenderLives(x.sender, T.Sent(window, expired), x.net, first);
      assert x.net + q == x.net;
    }
    AnswersMore(x.answers, first, x.net, q);
    if !x.receiver.failed {
      Usable(x, first);
      AlignedMore(x.receiver, x.net, q);
    }
  }

  // ---- A segment arrives ----------------------------------------------------------------

  /** Without memory for its stream, a receiver that is not closed has only dropped the segment. */
  lemma NoMemoryDrops(c: R.Receiver, sent: seq<byte>, first: int, q: Packet, available: bool)
    requires R.Consistent(c, sent, first) && c.stream.None? && 0 < |q.data| < 0x1_0000
    requires W.Stored(c.rx.segments, c.rx.current, 1, c.Space())
    requires R.Admissible(c, q.seqNo, |q.data|, available)
    ensures var c' := R.StoreRxData(c, q.seqNo, q.data, available, false).0;
      !c'.failed ==> c' == c.(rx := c.rx.(sack := None, userDataLength := 0))
  {
    hide W.InOrder, W.Chain, R.HeldInStream;
    R.SpaceFits(c);
  }

  /** The receiver after an arrival, and its answer. */
  lemma ArrivalGood(c: R.Receiver, net: seq<Packet>, written: seq<byte>, first: int, q: Packet, available: bool,
                    memory: bool)
    requires ReceiverGood(c, net, written, first) && !c.failed && q in net && Genuine(q, written, first)
    requires Segmented(net)
    requires c.Buffer().Ok() && W.Stored(c.rx.segments, c.rx.current, 1, c.Space())
    requires Fresh(q.place, q.End(), c.Position())
    ensures var c' := R.StoreRxData(c, q.seqNo, q.data, available, memory).0;
      && (c'.stream.Some? ==> c'.stream.value.Ok())
      && ReceiverGood(c', net, written, first)
      && (!c'.failed ==>
            && Meant(AnswerOf(c', q), first, net) && Kept(AnswerOf(c', q), c')
            && forall p :: Has(c, p) ==> Has(c', p))
  {
    hide Aligned, Has, Mark, Segmented, Fresh, W.Stored, R.InStep, R.Admissible, R.StoreRxData;
    ArrivalAdmissible(c, written, first, net, q, available);
    var c' := R.StoreRxData(c, q.seqNo, q.data, available, memory).0;
    if c.stream.Some? || memory {
      R.StepExact(c, written, first, q.seqNo, q.data, available, memory);
      ArrivalKeeps(c, written, first, net, q, available, memory);
      AnswerTrue(c, written, first, net, q, available, memory);
      StreamOk(c', written, first);
      NotFailed(c', written, first);
    } else {
      R.NoMemory(c, written, first, q.seqNo, q.data, available);
      NoMemoryDrops(c, written, first, q, available);
      if !c'.failed {
        StreamOk(c', written, first);
        DroppedAnswer(c, c', net, written, first, q);
      }
    }
  }

  lemma StreamOk(c: R.Receiver, written: seq<byte>, first: int)
    requires R.Consistent(c, written, first)
    ensures c.stream.Some? ==> c.stream.value.Ok()
  {}

  lemma NotFailed(c: R.Receiver, written: seq<byte>, first: int)
    requires R.Consistent(c, written, first)
    ensures !c.failed && R.Sound(c, written, first)
  {}

  lemma DroppedAnswer(c: R.Receiver, c': R.Receiver, net: seq<Packet>, written: seq<byte>, first: int, q: Packet)
    requires R.Consistent(c, written, first) && c.Buffer().Ok() && Aligned(c, net)
    requires c' == c.(rx := c.rx.(sack := None, userDataLength := 0))
    ensures Aligned(c', net) && Meant(AnswerOf(c', q), first, net) && Kept(AnswerOf(c', q), c')
    ensures forall p :: Has(c, p) ==> Has(c', p)
  {}

  lemma KeptMore(answers: seq<Answer>, reports: seq<T.Report>, c: R.Receiver, c': R.Receiver)
    requires (c.stream.Some? ==> c.stream.value.size < |c.stream.value.view|)
    requires (c'.stream.Some? ==> c'.stream.value.size < |c'.stream.value.view|)
    requires forall p :: Has(c, p) ==> Has(c', p)
    requires AnswersKept(answers, c) && Backed(reports, c)
    ensures AnswersKept(answers, c') && Backed(reports, c')
  {}

  lemma ArriveStep(x: Connection, k: nat, available: bool, memory: bool, first: int) returns (x': Connection)
    requires Good(x, first) && k < |x.net| && !x.receiver.failed && |x.net[k].data| < 0x1_0000
    requires x.receiver.Buffer().Ok() && W.Stored(x.receiver.rx.segments, x.receiver.rx.current, 1, x.receiver.Space())
    requires Fresh(x.net[k].place, x.net[k].End(), x.receiver.Position())
    ensures var c' := R.StoreRxData(x.receiver, x.net[k].seqNo, x.net[k].data, available, memory).0;
      && (c'.stream.Some? ==> c'.stream.value.Ok())
      && x' == x.(receiver := c', answers := x.answers + if c'.failed then [] else [AnswerOf(c', x.net[k])])
    ensures Good(x', first)
  {
    hide R.Consistent, R.Sound, R.StoreRxData, T.InStep, Genuine, Flown, Has, Aligned, Meant, Kept, Segmented, Fresh,
      ReceiverGood, AnswersKept, Backed;
    var q := x.net[k];
    ArrivalGood(x.receiver, x.net, x.sender.written, first, q, available, memory);
    var c' := R.StoreRxData(x.receiver, q.seqNo, q.data, available, memory).0;
    x' := x.(receiver := c', answers := x.answers + if c'.failed then [] else [AnswerOf(c', q)]);
    if !c'.failed {
      KeptMore(x.answers, x.sender.reports, x.receiver, c');
      KeptOneMore(x.answers, AnswerOf(c', q), c');
    }
  }

  lemma KeptOneMore(answers: seq<Answer>, a: Answer, c: R.Receiver)
    requires (c.stream.Some? ==> c.stream.value.size < |c.stream.value.view|) && AnswersKept(answers, c) && Kept(a, c)
    ensures AnswersKept(answers + [a], c)
  {}

  lemma ReadStep(x: Connection, n: nat, first: int)
    requires Good(x, first) && (x.receiver.stream.Some? ==> x.receiver.stream.value.Ok())
    ensures var c' := R.Receive(x.receiver, n);
      (c'.stream.Some? ==> c'.stream.value.Ok()) && Good(x.(receiver := c'), first)
  {
    hide R.Consistent, SenderGood, AnswersOk, AnswersKept, Backed;
    var c := x.receiver;
    if !c.failed {
      R.ReadStep(c, x.sender.written, first, n);
      var c' := R.Receive(c, n);
      StreamOk(c', x.sender.written, first);
      assert c'.rx == c.rx && c'.Position() == c.Position();
      KeptMore(x.answers, x.sender.reports, c, c');
    }
  }

  // ---- An answer arrives ----------------------------------------------------------------

  /** The end of a segment that has been sent is not beyond the highest number sent. */
  lemma MarkSent(s: T.Sender, net: seq<Packet>, first: int, x: nat)
    requires TxOk(s.tx, s.stream) && NetOk(s, net, first) && Mark(net, x)
    ensures x <= s.una + InFlight(s.tx)
  {
    hide TxOk, FliesIn, InFlight;
    if x > s.una {
      var i :| 0 <= i < |net| && net[i].End() == x;
      FlightWithin(s, net[i].place, |net[i].data|);
    }
  }

  /** The numbers of an acknowledgement, seen from the left edge. */
  lemma AckNumbers(first: int, una: int, place: int)
    requires Fresh(place, place, una)
    ensures var number, base := Wrap(first + place), Wrap(first + una);
      && Seq32.Distance(number, base) == place - una
      && (place <= una ==> LessOrEqual(number, base))
      && (place >= una ==> Sub(number, base) == place - una)
  {}

  /** A report of bytes that the receiver has. */
  lemma BackedMore(reports: seq<T.Report>, report: T.Report, c: R.Receiver)
    requires (c.stream.Some? ==> c.stream.value.size < |c.stream.value.view|) && Backed(reports, c)
    requires forall p :: report.low <= p < report.high ==> Has(c, p)
    ensures Backed(reports + [report], c)
  {}

  /** An acknowledgement is one the sender can deal with, and it reports what the receiver has. */
  lemma AckAllowed(s: T.Sender, net: seq<Packet>, first: int, a: Answer)
    requires SenderGood(s, net, first) && TxOk(s.tx, s.stream) && Meant(a, first, net) && Fresh(a.place, a.place, s.una)
    ensures T.Allowed(s, T.Acked(a.number))
    ensures T.Next(s, T.Acked(a.number)).reports == s.reports + [T.Report(0, a.place)]
    ensures T.Next(s, T.Acked(a.number)).written == s.written
  {
    hide TxOk, Short, Segmented, Mark, Genuine, Flown, T.Holds, T.Covered, TxAck, InFlight, Sub, Wrap, LessOrEqual,
      Seq32.Distance, Fresh;
    T.InStepParts(s, first);
    AckNumbers(first, s.una, a.place);
    MarkSent(s, net, first, a.place);
  }

  lemma SackNumbers(first: int, una: int, low: int, high: int)
    requires Fresh(low, high, una) && low < high < low + TWO31
    ensures var from, last, base := Wrap(first + low), Wrap(first + high), Wrap(first + una);
      && Seq32.Distance(from, base) == low - una
      && Sub(last, from) == high - low && Less(from, last)
      && (low < una ==> Sub(from, base) >= TWO31)
      && (low >= una ==> Sub(from, base) == low - una)
  {
    SubWrap(first + low, first + una);
    SubWrap(first + high, first + low);
  }

  lemma SackAllowed(s: T.Sender, net: seq<Packet>, first: int, a: Answer)
    requires SenderGood(s, net, first) && TxOk(s.tx, s.stream) && Meant(a, first, net)
    requires a.sack.Some? && Fresh(a.low, a.high, s.una)
    ensures var e := T.Sacked(a.sack.value.first, a.sack.value.last);
      && T.Allowed(s, e) && T.Next(s, e).reports == s.reports + [T.Report(a.low, a.high)]
      && T.Next(s, e).written == s.written
  {
    hide TxOk, Short, Segmented, Mark, Genuine, Flown, T.Holds, T.Covered, TxSack, Sub, Wrap, Less, Seq32.Distance,
      Fresh;
    T.InStepParts(s, first);
    SackNumbers(first, s.una, a.low, a.high);
    MarkSent(s, net, first, a.high);
  }

  /** The sender takes a report of bytes that the receiver has. */
  lemma ReportStep(x: Connection, e: T.Event, report: T.Report, first: int)
    requires Good(x, first) && TxOk(x.sender.tx, x.sender.stream) && T.Allowed(x.sender, e)
    requires var s' := T.Next(x.sender, e); s'.reports == x.sender.reports + [report] && s'.written == x.sender.written
    requires (x.receiver.stream.Some? ==> x.receiver.stream.value.Ok())
    requires !x.receiver.failed ==> forall p :: report.low <= p < report.high ==> Has(x.receiver, p)
    ensures Good(x.(sender := T.Next(x.sender, e)), first)
  {
    hide SenderGood, ReceiverGood, TxOk, T.Allowed, T.Next, AnswersOk, AnswersKept, Backed, Has;
    SenderLives(x.sender, e, x.net, first);
    if !x.receiver.failed {
      BackedMore(x.sender.reports, report, x.receiver);
    }
  }

  lemma TakeAckStep(x: Connection, k: nat, first: int)
    requires Good(x, first) && TxOk(x.sender.tx, x.sender.stream)
    requires (x.receiver.stream.Some? ==> x.receiver.stream.value.Ok())
    requires k < |x.answers| && Fresh(x.answers[k].place, x.answers[k].place, x.sender.una)
    ensures Good(x.(sender := T.Next(x.sender, T.Acked(x.answers[k].number))), first)
  {
    hide SenderGood, ReceiverGood, TxOk, T.Allowed, T.Next, Backed, Has, Fresh, Meant;
    var a := x.answers[k];
    AckAllowed(x.sender, x.net, first, a);
    assert !x.receiver.failed ==> Kept(a, x.receiver);
    ReportStep(x, T.Acked(a.number), T.Report(0, a.place), first);
  }

  lemma TakeSackStep(x: Connection, k: nat, first: int)
    requires Good(x, first) && TxOk(x.sender.tx, x.sender.stream)
    requires (x.receiver.stream.Some? ==> x.receiver.stream.value.Ok())
    requires k < |x.answers| && x.answers[k].sack.Some? && Fresh(x.answers[k].low, x.answers[k].high, x.sender.una)
    ensures var b := x.answers[k].sack.value; Good(x.(sender := T.Next(x.sender, T.Sacked(b.first, b.last))), first)
  {
    hide SenderGood, ReceiverGood, TxOk, T.Allowed, T.Next, Backed, Has, Fresh, Meant;
    var a := x.answers[k];
    SackAllowed(x.sender, x.net, first, a);
    assert !x.receiver.failed ==> Kept(a, x.receiver);
    ReportStep(x, T.Sacked(a.sack.value.first, a.sack.value.last), T.Report(a.low, a.high), first);
  }

  // ---- Every step -----------------------------------------------------------------------

  lemma StepGood(x: Connection, e: Event, x': Connection, first: int)
    requires Good(x, first) && Step(x, e, x', first)
    ensures Good(x', first)
  {
    hide Good, TxOk, T.InStep, T.Next, Offered, R.Consistent, R.StoreRxData, R.Receive, W.Stored, Fresh, Sending;
    Usable(x, first);
    match e
    case Write(data) =>
      assert T.Allowed(x.sender, T.Written(data));
      OwnStep(x, T.Written(data), first);
    case Hand(free) => OwnStep(x, T.Handed(free), first);
    case Transmit(window, expired) => TransmitStep(x, window, expired, first);
    case Arrive(k, available, memory) => var y := ArriveStep(x, k, available, memory, first);
    case Read(n) => ReadStep(x, n, first);
    case TakeAck(k) => TakeAckStep(x, k, first);
    case TakeSack(k) => TakeSackStep(x, k, first);
  }

  // ---- Every run ------------------------------------------------------------------------

  ghost predicate StepOf(x: Connection, e: Event, x': Connection, first: int) {
    Good(x, first) ==> Step(x, e, x', first)
  }

  ghost predicate Run(states: seq<Connection>, events: seq<Event>, first: int) {
    && |states| == |events| + 1
    && forall i :: 0 <= i < |events| ==> StepOf(states[i], events[i], states[i + 1], first)
  }

  /** Both ends after the handshake, and an empty network. */
  function Start(first: int, length: nat, windowLength: uint32, mss: uint16, sendFullSize: bool,
                 streamSize: nat): Connection {
    Connection(T.Start(first, length, windowLength, mss, sendFullSize), R.Start(first, streamSize), [], [])
  }

  lemma StartGood(first: int, length: nat, windowLength: uint32, mss: uint16, sendFullSize: bool, streamSize: nat)
    requires 0 < mss && 0 < length <= TWO31 && StreamLength(streamSize) <= TWO31
    ensures Good(Start(first, length, windowLength, mss, sendFullSize, streamSize), first)
  {
    hide T.InStep, R.Sound;
    T.StartInStep(first, length, windowLength, mss, sendFullSize);
    R.StartSound([], first, streamSize);
  }

  lemma {:induction false} RunGood(states: seq<Connection>, events: seq<Event>, first: int, i: nat)
    requires Run(states, events, first) && i < |states| && Good(states[0], first)
    ensures Good(states[i], first)
    decreases i
  {
    hide Good, Step;
    if i > 0 {
      RunGood(states, events, first, i - 1);
      assert StepOf(states[i - 1], events[i - 1], states[i], first);
      StepGood(states[i - 1], events[i - 1], states[i], first);
    }
  }

  /** Over every run, the bytes handed to the owner of the receiving socket are the first of those
      that the owner of the sending one wrote. */
  lemma Delivery(states: seq<Connection>, events: seq<Event>, first: int, i: nat)
    requires Run(states, events, first) && i < |states| && Good(states[0], first)
    ensures states[i].receiver.delivered <= states[i].sender.written
  {
    RunGood(states, events, first, i);
    DeliveredPrefix(states[i].receiver, states[i].sender.written, first);
  }

  lemma DeliveredPrefix(c: R.Receiver, sent: seq<byte>, first: int)
    requires R.Sound(c, sent, first)
    ensures c.delivered <= sent
  {}

  /** The byte at position p still waits in the sender's stream. */
  predicate Waits(s: T.Sender, p: nat, b: byte)
    requires s.stream.size <= |s.stream.view|
  {
    s.una <= p && p - s.una < |s.stream.Contents()| && s.stream.Contents()[p - s.una] == b
  }

  /** The byte at position p has been handed over, or lies in the receiver's stream: readable, or
      ahead of the head in a stored segment. */
  ghost predicate Arrived(c: R.Receiver, p: nat, b: byte)
    requires c.stream.Some? ==> c.stream.value.Ok()
  {
    if p < |c.delivered| then c.delivered[p] == b
    else
      var at := p - |c.delivered|;
      && at < |c.Buffer().view| && c.Buffer().view[at] == b
      && (at < c.Buffer().size || W.Held(c.rx.segments, c.rx.current, at - c.Buffer().size))
  }

  lemma HasArrived(c: R.Receiver, sent: seq<byte>, first: int, p: nat)
    requires R.Consistent(c, sent, first) && c.Buffer().Ok() && Has(c, p) && p < |sent|
    ensures (c.stream.Some? ==> c.stream.value.Ok()) && Arrived(c, p, sent[p])
  {}

  /** Confirmed bytes are at the receiver. */
  lemma ConfirmedArrived(x: Connection, first: int, p: nat)
    requires Good(x, first) && !x.receiver.failed && p < x.sender.una
    ensures (x.receiver.stream.Some? ==> x.receiver.stream.value.Ok()) && p < |x.sender.written|
    ensures Arrived(x.receiver, p, x.sender.written[p])
  {
    hide R.Consistent, Aligned, NetOk, Segmented, Has, Arrived, AnswersOk, AnswersKept, TxOk, T.Holds;
    Usable(x, first);
    T.InStepParts(x.sender, first);
    assert T.Reported(x.sender.reports, p);
    HasArrived(x.receiver, x.sender.written, first, p);
  }

  lemma UnconfirmedWaits(s: T.Sender, first: int, p: nat)
    requires T.InStep(s, first) && s.una <= p < |s.written|
    ensures s.stream.Ok() && Waits(s, p, s.written[p])
  {}

  /** Over every run, no byte that the sending owner wrote is ever lost: it waits in the sender's
      stream until it is handed over or in the receiver's stream, unless the receiver has been
      closed for want of memory. */
  lemma NothingLost(states: seq<Connection>, events: seq<Event>, first: int, i: nat, p: nat)
    requires Run(states, events, first) && i < |states| && Good(states[0], first)
    requires !states[i].receiver.failed && p < |states[i].sender.written|
    ensures var x := states[i]; var b := x.sender.written[p];
      && x.sender.stream.Ok() && (x.receiver.stream.Some? ==> x.receiver.stream.value.Ok())
      && (Waits(x.sender, p, b) || Arrived(x.receiver, p, b))
  {
    hide Good, Arrived, Waits;
    RunGood(states, events, first, i);
    var x := states[i];
    Usable(x, first);
    T.InStepParts(x.sender, first);
    if p < x.sender.una {
      ConfirmedArrived(x, first, p);
    } else {
      UnconfirmedWaits(x.sender, first, p);
    }
  }
}
