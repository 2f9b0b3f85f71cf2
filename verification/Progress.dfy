/** A connection can always be brought to its end: however many segments and acknowledgements have been
    lost, from every state that can be reached, sending, receiving and reading hand over all that has
    been written, unless the receiver has been closed. The one connection that cannot is the one whose
    first number is 0: there nothing is ever sent. */
module Progress {
  import opened Common
  import opened Seq32
  import opened StreamBuffers
  import opened TxWindow
  import opened Flight
  import opened Arrival
  import opened Connections
  import opened Liveness
  import T = Transmission
  import R = Reception
  import W = RxWindow

  /** The owner writes no more, and what was on its way, the first n segments and m answers, is lost. */
  predicate Late(e: Event, n: nat, m: nat) {
    match e
    case Write(_) => false
    case Arrive(k, _, _) => k >= n
    case TakeAck(k) => k >= m
    case TakeSack(k) => k >= m
    case _ => true
  }

  /** A run from x to y without what was on its way. */
  ghost predicate Path(states: seq<Connection>, events: seq<Event>, x: Connection, y: Connection, first: int, n: nat,
                       m: nat) {
    && Run(states, events, first) && states[0] == x && states[|events|] == y
    && forall i :: 0 <= i < |events| ==> Late(events[i], n, m)
  }

  ghost predicate Reaches(x: Connection, y: Connection, first: int, n: nat, m: nat) {
    exists states, events :: Path(states, events, x, y, first, n, m)
  }

  lemma OneStep(x: Connection, e: Event, y: Connection, first: int, n: nat, m: nat)
    requires Good(x, first) && Step(x, e, y, first) && Late(e, n, m)
    ensures Reaches(x, y, first, n, m)
  {
    hide Good, Step, Late;
    assert Path([x, y], [e], x, y, first, n, m);
  }

  lemma ReachesOn(x: Connection, y: Connection, z: Connection, first: int, n: nat, m: nat)
    requires Reaches(x, y, first, n, m) && Reaches(y, z, first, n, m)
    ensures Reaches(x, z, first, n, m)
  {
    hide StepOf, Late;
    var s, e :| Path(s, e, x, y, first, n, m);
    var s', e' :| Path(s', e', y, z, first, n, m);
    var states, events := s + s'[1..], e + e';
    forall i | 0 <= i < |events| ensures StepOf(states[i], events[i], states[i + 1], first) && Late(events[i], n, m) {
      if i < |e| {
        assert StepOf(s[i], e[i], s[i + 1], first);
      } else {
        assert StepOf(s'[i - |e|], e'[i - |e|], s'[i - |e| + 1], first);
      }
    }
    assert Path(states, events, x, z, first, n, m);
  }

  /** The receiver is open, and a full segment fits its stream. */
  ghost predicate Open(x: Connection, first: int, mss: uint16, streamSize: nat) {
    true <==> Lively(x, first, mss, streamSize) && !x.receiver.failed && mss <= streamSize
  }

  /** One event, after which the receiver is open still. */
  lemma Go(x: Connection, e: Event, y: Connection, first: int, mss: uint16, streamSize: nat, n: nat, m: nat)
    requires Open(x, first, mss, streamSize) && Good(x, first) && Step(x, e, y, first) && Late(e, n, m)
    requires !y.receiver.failed
    ensures Reaches(x, y, first, n, m) && Open(y, first, mss, streamSize)
  {
    hide Good, Step, Late, Lively, Reaches;
    StepLively(x, e, y, first, mss, streamSize);
    OneStep(x, e, y, first, n, m);
  }

  lemma OpenGood(x: Connection, first: int, mss: uint16, streamSize: nat)
    requires Open(x, first, mss, streamSize)
    ensures Good(x, first) && !x.receiver.failed && mss <= streamSize
    ensures TxOk(x.sender.tx, x.sender.stream) && T.InStep(x.sender, first)
    ensures x.receiver.stream.Some? ==> x.receiver.stream.value.Ok()
    ensures R.Consistent(x.receiver, x.sender.written, first)
  {
    hide Lively, Good;
    LivelyGood(x, first, mss, streamSize);
    Usable(x, first);
  }

  // ---- Positions ------------------------------------------------------------------------

  /** The left edge is not beyond the receiver's position, and both lie within what has been written. */
  lemma Behind(x: Connection, first: int, mss: uint16, streamSize: nat)
    requires Open(x, first, mss, streamSize)
    ensures var s := x.sender; var p := x.receiver.Position();
      s.una <= p <= |s.written| == s.una + s.stream.size < s.una + TWO31
  {
    hide Lively, R.HeldInStream, R.Reassembled, Good, TxOk, T.Holds;
    OpenGood(x, first, mss, streamSize);
    SenderWithin(x.sender, first);
    ReceiverWithin(x.receiver, x.sender.written, first);
    ExpectedMissing(x.receiver, x.sender.written, first);
    if x.receiver.Position() < x.sender.una {
      ConfirmedHere(x, first, x.receiver.Position());
    }
  }

  lemma SenderWithin(s: T.Sender, first: int)
    requires T.InStep(s, first)
    ensures |s.written| == s.una + s.stream.size && s.stream.size < TWO31
  {}

  lemma ReceiverWithin(c: R.Receiver, sent: seq<byte>, first: int)
    requires R.Consistent(c, sent, first)
    ensures c.Position() <= |sent|
  {}

  lemma ConfirmedHere(x: Connection, first: int, p: nat)
    requires Good(x, first) && !x.receiver.failed && p < x.sender.una
    requires x.receiver.stream.Some? ==> x.receiver.stream.value.size < |x.receiver.stream.value.view|
    ensures Has(x.receiver, p)
  {
    hide R.Sound, Aligned, NetOk, Segmented, Has, AnswersOk, AnswersKept, TxOk, T.Holds;
    assert T.Reported(x.sender.reports, p);
  }

  // ---- Reading --------------------------------------------------------------------------

  lemma ReadAll(x: Connection, first: int, mss: uint16, streamSize: nat, n: nat, m: nat) returns (y: Connection)
    requires Open(x, first, mss, streamSize)
    ensures Reaches(x, y, first, n, m) && Open(y, first, mss, streamSize)
    ensures y == x.(receiver := y.receiver) && y.receiver.Position() == x.receiver.Position()
    ensures y.receiver.Buffer().size == 0
  {
    hide Open, Good, Reaches, R.Consistent;
    OpenGood(x, first, mss, streamSize);
    var k := x.receiver.Buffer().size;
    y := x.(receiver := R.Receive(x.receiver, k));
    R.ReadStep(x.receiver, x.sender.written, first, k);
    Go(x, Read(k), y, first, mss, streamSize, n, m);
  }

  // ---- Sending the segment at the left edge ---------------------------------------------

  /** The segments that have been sent and are not acknowledged, in the order in which they go out again. */
  function Pool(tx: Tx): seq<nat> {
    tx.priority + tx.waiting
  }

  /** Once its time is up, the first of them goes out, and is the last of them afterwards. */
  lemma Turn(tx: Tx, r: Ring, window: uint32)
    requires TxOk(tx, r) && Pool(tx) != []
    ensures var (u, k) := TxGet(tx, window, true);
      && k.Some? && k.value < |tx.tiles| && tx.tiles[k.value].id == Pool(tx)[0]
      && Pool(u) == Pool(tx)[1..] + [Pool(tx)[0]]
      && SameShape(tx.tiles, u.tiles)
  {
    hide InPlace, Ordered, SentFirst, Highest;
    var id := Pool(tx)[0];
    assert id in tx.priority || id in tx.waiting;
    QueuedNamed(tx.tiles, tx.Sent(), tx.priority, tx.waiting, id);
  }

  /** The first new segment goes out if the peer has room for one and nothing has been sent before. */
  lemma FirstGoes(tx: Tx, r: Ring)
    requires TxOk(tx, r) && Short(tx) && Primed(tx) && !tx.sendFullSize && tx.tiles != [] && tx.Sent() == 0
    ensures TxGet(tx, tx.mss, false).1 == Some(0)
  {
    NothingPending(tx);
  }

  lemma NothingPending(tx: Tx)
    requires |tx.queue| == |tx.tiles| && Queued(tx.tiles, 0, tx.priority, tx.waiting)
    ensures tx.priority == [] && tx.waiting == []
  {
    if tx.priority != [] {
      FirstIn(tx.priority);
    }
    if tx.waiting != [] {
      FirstIn(tx.waiting);
    }
  }

  lemma FirstIn(s: seq<nat>)
    requires s != []
    ensures s[0] in s
  {}

  /** One transmission. */
  lemma SendOne(x: Connection, window: uint32, expired: bool, first: int, mss: uint16, streamSize: nat, n: nat, m: nat)
    returns (y: Connection, q: Packet)
    requires Open(x, first, mss, streamSize) && TxOk(x.sender.tx, x.sender.stream)
    requires T.Emitted(x.sender, window, expired).Some?
    ensures Reaches(x, y, first, n, m) && Open(y, first, mss, streamSize)
    ensures y == x.(sender := T.Emit(x.sender, window, expired), net := x.net + [q])
    ensures |q.data| <= mss && q.place == T.Position(x.sender, T.Emitted(x.sender, window, expired).value.0)
  {
    hide Open, Good, Reaches, R.Consistent, T.Emitted, T.Emit, T.InStep, TxOk, FliesIn, Flown, Short, Genuine;
    OpenGood(x, first, mss, streamSize);
    OpenSizes(x, first, mss, streamSize);
    q := SentGenuine(x.sender, window, expired, first);
    y := x.(sender := T.Emit(x.sender, window, expired), net := x.net + [q]);
    SentShort(x.sender, window, expired, first, q);
    Go(x, Transmit(window, expired), y, first, mss, streamSize, n, m);
  }

  lemma OpenSizes(x: Connection, first: int, mss: uint16, streamSize: nat)
    requires Open(x, first, mss, streamSize)
    ensures Short(x.sender.tx) && x.sender.tx.mss == mss && !x.sender.tx.sendFullSize && Primed(x.sender.tx)
    ensures Sized(x.receiver, streamSize)
  {
    hide T.InStep, NetOk, Segmented, ReceiverGood, AnswersGood, Unmixed, EdgeAnswered, ReportsKnown, Primed, Short,
      Sized;
  }

  lemma SentShort(s: T.Sender, window: uint32, expired: bool, first: int, q: Packet)
    requires T.InStep(s, first) && Short(s.tx) && TxOk(s.tx, s.stream)
    requires var s' := T.Emit(s, window, expired); FliesIn(s'.tx.tiles, s'.tx.current, s'.una, q.place, |q.data|)
    ensures |q.data| <= s.tx.mss
  {
    hide T.InStep, Short, TxOk, FliesIn, T.Emit, T.Allowed;
    SendAllowed(s, window, expired);
    var s' := T.Emit(s, window, expired);
    assert s' == T.Next(s, T.Sent(window, expired));
    T.EmitStep(s, first, window, expired);
    T.InStepParts(s', first);
    ShortLasts(s, first, T.Sent(window, expired));
    StepSizes(s, first, T.Sent(window, expired));
    FlightWithin(s', q.place, |q.data|);
  }

  lemma {:induction false} LeftInTurn(x: Connection, i: nat, first: int, mss: uint16, streamSize: nat, n: nat, m: nat)
    returns (y: Connection, q: Packet)
    requires Open(x, first, mss, streamSize) && x.sender.tx.tiles != []
    requires i < |Pool(x.sender.tx)| && Pool(x.sender.tx)[i] == x.sender.tx.tiles[0].id
    ensures Reaches(x, y, first, n, m) && Open(y, first, mss, streamSize)
    ensures SentTo(x, y, q, mss)
    decreases i
  {
    hide Open, Reaches, TxOk, T.Emitted, T.Emit, T.InStep, R.Consistent, Pool;
    OpenGood(x, first, mss, streamSize);
    InTurn(x.sender, 0);
    EmitKeeps(x.sender, 0, true);
    var z, p := SendOne(x, 0, true, first, mss, streamSize, n, m);
    if i == 0 {
      LeftPlace(x.sender, 0, true);
      y, q := z, p;
    } else {
      y, q := LeftInTurn(z, i - 1, first, mss, streamSize, n, m);
      ReachesOn(x, z, y, first, n, m);
    }
  }

  /** From x to y segments have gone out and nothing else has happened; q, the last one, starts at the left edge. */
  predicate SentTo(x: Connection, y: Connection, q: Packet, mss: nat) {
    && y.receiver == x.receiver && y.answers == x.answers && |y.net| > |x.net| && y.net[|y.net| - 1] == q
    && y.sender.una == x.sender.una && y.sender.written == x.sender.written
    && q.place == x.sender.una && |q.data| <= mss
  }

  lemma EmitKeeps(s: T.Sender, window: uint32, expired: bool)
    requires TxOk(s.tx, s.stream)
    ensures var s' := T.Emit(s, window, expired); s' == s.(tx := s'.tx)
  {}

  lemma InTurn(s: T.Sender, window: uint32)
    requires TxOk(s.tx, s.stream) && Pool(s.tx) != [] && s.tx.tiles != []
    ensures T.Emitted(s, window, true).Some?
    ensures var u := T.Emit(s, window, true).tx;
      && Pool(u) == Pool(s.tx)[1..] + [Pool(s.tx)[0]] && u.tiles != [] && u.tiles[0].id == s.tx.tiles[0].id
    ensures Pool(s.tx)[0] == s.tx.tiles[0].id ==> TxGet(s.tx, window, true).1 == Some(0)
  {
    hide InPlace, Ordered, Queued, SentFirst, Highest, TxGet, Pool, T.Peek;
    Turn(s.tx, s.stream, window);
    if Pool(s.tx)[0] == s.tx.tiles[0].id {
      NameOfFirst(s.tx, s.stream, TxGet(s.tx, window, true).1.value);
    }
  }

  lemma NameOfFirst(tx: Tx, r: Ring, k: nat)
    requires TxOk(tx, r) && k < |tx.tiles| && tx.tiles[k].id == tx.tiles[0].id
    ensures k == 0
  {}

  /** The place of what goes out when it is the first segment of the window. */
  lemma LeftPlace(s: T.Sender, window: uint32, expired: bool)
    requires TxOk(s.tx, s.stream) && TxGet(s.tx, window, expired).1 == Some(0) && s.tx.tiles != []
    ensures T.Emitted(s, window, expired).Some?
    ensures T.Position(s, T.Emitted(s, window, expired).value.0) == s.una
  {
    hide QueuesOk, InPlace, Ordered, TxGet, T.Peek;
    TxGetSends(s.tx, s.stream, window, expired);
    EdgeAt(s.tx.tiles, s.tx.current, s.stream, 0);
  }

  /** Bytes of the stream go to an empty window, which gets one descriptor. */
  lemma HandOne(x: Connection, first: int, mss: uint16, streamSize: nat, n: nat, m: nat) returns (y: Connection)
    requires Open(x, first, mss, streamSize) && x.sender.tx.tiles == [] && x.sender.una < |x.sender.written|
    ensures Reaches(x, y, first, n, m) && Open(y, first, mss, streamSize)
    ensures y == x.(sender := y.sender) && y.sender.tx.tiles != []
    ensures y.sender.una == x.sender.una && y.sender.written == x.sender.written
  {
    hide Open, Good, Reaches, TxOk, T.InStep, T.Hand, R.Consistent;
    OpenGood(x, first, mss, streamSize);
    SenderWithin(x.sender, first);
    HandedOne(x.sender);
    y := x.(sender := T.Hand(x.sender, [0]));
    Go(x, Hand([0]), y, first, mss, streamSize, n, m);
  }

  lemma HandedOne(s: T.Sender)
    requires TxOk(s.tx, s.stream) && s.tx.tiles == [] && 0 < s.stream.size
    ensures T.Allowed(s, T.Handed([0]))
    ensures var s' := T.Hand(s, [0]); s'.tx.tiles != [] && s' == s.(tx := s'.tx, stream := s'.stream)
  {
    hide Grow;
    var r, free := s.stream, [0];
    EdgeAt(s.tx.tiles, s.tx.current, r, 0);
    assert r.mid == 0 && Fill(s.tx, r.size) == (s.tx, 0) && free[1..] == [];
    GrowOnce(s.tx, r.size, r.tail, |r.view|, free);
    var k := Min(r.size, s.tx.mss);
    GrowNone(Append(s.tx, 0, k, r.tail), r.size - k, Advance(r.tail, k, |r.view|), |r.view|, free[1..]);
  }

  /** The segment at the left edge goes out, for the first time or again. */
  lemma LeftSent(x: Connection, first: int, mss: uint16, streamSize: nat, n: nat, m: nat)
    returns (y: Connection, q: Packet)
    requires Open(x, first, mss, streamSize) && x.sender.una < |x.sender.written|
    ensures Reaches(x, y, first, n, m) && Open(y, first, mss, streamSize)
    ensures SentTo(x, y, q, mss)
  {
    hide Open, Reaches, SentTo;
    if x.sender.tx.tiles == [] {
      var z := HandOne(x, first, mss, streamSize, n, m);
      y, q := FilledSent(z, first, mss, streamSize, n, m);
      ReachesOn(x, z, y, first, n, m);
      SentSame(x, z, y, q, mss);
    } else {
      y, q := FilledSent(x, first, mss, streamSize, n, m);
    }
  }

  lemma SentSame(x: Connection, z: Connection, y: Connection, q: Packet, mss: nat)
    requires SentTo(z, y, q, mss) && z == x.(sender := z.sender)
    requires z.sender.una == x.sender.una && z.sender.written == x.sender.written
    ensures SentTo(x, y, q, mss)
  {}

  lemma FilledSent(x: Connection, first: int, mss: uint16, streamSize: nat, n: nat, m: nat)
    returns (y: Connection, q: Packet)
    requires Open(x, first, mss, streamSize) && x.sender.tx.tiles != []
    ensures Reaches(x, y, first, n, m) && Open(y, first, mss, streamSize)
    ensures SentTo(x, y, q, mss)
  {
    hide Open, Reaches, Good, Lively, TxOk, T.InStep, T.Emitted, T.Emit, R.Consistent, Primed, Short;
    OpenGood(x, first, mss, streamSize);
    OpenSizes(x, first, mss, streamSize);
    var s := x.sender;
    var i, again := LeftQueued(x, first, mss, streamSize);
    if again {
      y, q := LeftInTurn(x, i, first, mss, streamSize, n, m);
    } else {
      FirstGoes(s.tx, s.stream);
      LeftPlace(s, mss, false);
      EmitKeeps(s, mss, false);
      y, q := SendOne(x, mss, false, first, mss, streamSize, n, m);
    }
  }

  /** The segment at the left edge waits to be sent again, unless nothing has been sent yet. */
  lemma LeftQueued(x: Connection, first: int, mss: uint16, streamSize: nat) returns (i: nat, again: bool)
    requires Open(x, first, mss, streamSize) && x.sender.tx.tiles != []
    ensures |x.sender.tx.queue| <= |x.sender.tx.tiles|
    ensures if again then i < |Pool(x.sender.tx)| && Pool(x.sender.tx)[i] == x.sender.tx.tiles[0].id
            else x.sender.tx.Sent() == 0
  {
    hide Lively, Good, TxOk, T.InStep, R.Consistent;
    OpenGood(x, first, mss, streamSize);
    LeftUnacked(x, first, mss, streamSize);
    var tx := x.sender.tx;
    UnackedQueued(tx, x.sender.stream, 0);
    again := tx.Sent() != 0;
    i := 0;
    if again {
      assert tx.tiles[0].id in Pool(tx);
      i :| 0 <= i < |Pool(tx)| && Pool(tx)[i] == tx.tiles[0].id;
    }
  }

  // ---- It arrives and is acknowledged ---------------------------------------------------

  lemma Roomy(c: R.Receiver, streamSize: nat)
    requires Sized(c, streamSize) && c.Buffer().size == 0
    ensures c.Space() >= streamSize
  {}

  /** With room, memory and a descriptor, a segment at the receiver's position moves it, and any other leaves it. */
  lemma Arrives(c: R.Receiver, sent: seq<byte>, first: int, net: seq<Packet>, q: Packet, streamSize: nat)
    requires R.Consistent(c, sent, first) && W.Stored(c.rx.segments, c.rx.current, 1, c.Space())
    requires Aligned(c, net) && q in net && Genuine(q, sent, first) && Segmented(net)
    requires Fresh(q.place, q.End(), c.Position())
    requires Sized(c, streamSize) && c.Buffer().size == 0 && |q.data| <= streamSize
    ensures var c' := R.StoreRxData(c, q.seqNo, q.data, true, true).0;
      && R.Consistent(c', sent, first)
      && if q.place == c.Position() then c'.Position() > c.Position() else c'.Position() == c.Position()
  {
    hide Sized, R.StoreRxData, R.Admissible, Mark, AllKnown, Known, R.HeldInStream, R.Reassembled, Fresh, Segmented,
      W.Chain, Sub, Add, Wrap;
    ArrivalAdmissible(c, sent, first, net, q, true);
    R.StepExact(c, sent, first, q.seqNo, q.data, true, true);
    if q.place == c.Position() {
      Roomy(c, streamSize);
      var c', e := ExpectedMoves(c, sent, first, net, q, true, true);
    } else {
      OtherKeeps(c, sent, first, net, q, true, true);
    }
  }

  /** The last segment sent arrives. */
  lemma ArriveLast(x: Connection, q: Packet, first: int, mss: uint16, streamSize: nat, n: nat, m: nat)
    returns (y: Connection)
    requires Open(x, first, mss, streamSize) && n < |x.net| && q == x.net[|x.net| - 1]
    requires x.receiver.Buffer().size == 0 && |q.data| <= mss && x.sender.una <= q.place
    ensures Reaches(x, y, first, n, m) && Open(y, first, mss, streamSize)
    ensures y.sender == x.sender && y.net == x.net && |y.answers| == |x.answers| + 1
    ensures y.answers[|x.answers|].place == y.receiver.Position()
    ensures var p := x.receiver.Position();
      if q.place == p then y.receiver.Position() > p else y.receiver.Position() == p
  {
    hide Open, Good, Reaches, TxOk, T.InStep, R.Consistent, R.StoreRxData, W.Stored, Sized, Short, Genuine, Aligned,
      Segmented;
    OpenGood(x, first, mss, streamSize);
    OpenSizes(x, first, mss, streamSize);
    Usable(x, first);
    NetFacts(x, first);
    Behind(x, first, mss, streamSize);
    WithinWritten(q, x.sender.written, first);
    Arrives(x.receiver, x.sender.written, first, x.net, q, streamSize);
    var c' := R.StoreRxData(x.receiver, q.seqNo, q.data, true, true).0;
    NotFailed(c', x.sender.written, first);
    y := x.(receiver := c', answers := x.answers + [AnswerOf(c', q)]);
    Go(x, Arrive(|x.net| - 1, true, true), y, first, mss, streamSize, n, m);
  }

  lemma WithinWritten(q: Packet, sent: seq<byte>, first: int)
    requires Genuine(q, sent, first)
    ensures q.End() <= |sent| && |q.data| < 0x1_0000
  {}

  /** The last answer is taken: the left edge is then where the receiver is. */
  lemma TakeLast(x: Connection, first: int, mss: uint16, streamSize: nat, n: nat, m: nat) returns (y: Connection)
    requires Open(x, first, mss, streamSize) && m < |x.answers|
    requires x.answers[|x.answers| - 1].place == x.receiver.Position()
    ensures Reaches(x, y, first, n, m) && Open(y, first, mss, streamSize)
    ensures y == x.(sender := y.sender) && y.sender.written == x.sender.written
    ensures y.sender.una == x.receiver.Position()
  {
    hide Open, Good, Reaches, TxOk, T.InStep, R.Consistent, T.Next, T.Allowed, SenderGood, Meant;
    OpenGood(x, first, mss, streamSize);
    GoodSender(x, first);
    Behind(x, first, mss, streamSize);
    var k := |x.answers| - 1;
    AckMoves(x.sender, x.net, first, x.answers[k]);
    AckAllowed(x.sender, x.net, first, x.answers[k]);
    y := x.(sender := T.Next(x.sender, T.Acked(x.answers[k].number)));
    Go(x, TakeAck(k), y, first, mss, streamSize, n, m);
  }

  /** Everything has been read, sent, received and acknowledged in one round: if nothing that has arrived
      was unacknowledged before, more has arrived now. */
  lemma Round(x: Connection, first: int, mss: uint16, streamSize: nat, n: nat, m: nat) returns (y: Connection)
    requires Open(x, first, mss, streamSize) && x.sender.una < |x.sender.written| && n <= |x.net| && m <= |x.answers|
    ensures Reaches(x, y, first, n, m) && Open(y, first, mss, streamSize) && n <= |y.net| && m <= |y.answers|
    ensures y.sender.written == x.sender.written && y.sender.una == y.receiver.Position()
    ensures y.receiver.Position() >= x.receiver.Position()
    ensures x.sender.una == x.receiver.Position() ==> y.receiver.Position() > x.receiver.Position()
  {
    hide Open, Reaches;
    var a := ReadAll(x, first, mss, streamSize, n, m);
    var b, q := LeftSent(a, first, mss, streamSize, n, m);
    var c := ArriveLast(b, q, first, mss, streamSize, n, m);
    y := TakeLast(c, first, mss, streamSize, n, m);
    ReachesOn(x, a, b, first, n, m);
    ReachesOn(x, b, c, first, n, m);
    ReachesOn(x, c, y, first, n, m);
  }

  /** All that has been written has been handed over, and the sender knows. */
  predicate Finished(y: Connection) {
    y.receiver.delivered == y.sender.written && y.sender.stream.size == 0
  }

  lemma {:induction false} Finish(x: Connection, first: int, mss: uint16, streamSize: nat, n: nat, m: nat)
    returns (y: Connection)
    requires Open(x, first, mss, streamSize) && n <= |x.net| && m <= |x.answers|
    requires x.sender.una <= x.receiver.Position() <= |x.sender.written|
    ensures Reaches(x, y, first, n, m) && Open(y, first, mss, streamSize)
    ensures y.sender.written == x.sender.written && Finished(y)
    decreases |x.sender.written| - x.receiver.Position(), x.receiver.Position() - x.sender.una
  {
    hide Open, Reaches, Finished;
    Behind(x, first, mss, streamSize);
    if x.sender.una == |x.sender.written| {
      y := ReadAll(x, first, mss, streamSize, n, m);
      AllRead(y, first, mss, streamSize);
    } else {
      var z := Round(x, first, mss, streamSize, n, m);
      Behind(z, first, mss, streamSize);
      y := Finish(z, first, mss, streamSize, n, m);
      ReachesOn(x, z, y, first, n, m);
    }
  }

  lemma AllRead(y: Connection, first: int, mss: uint16, streamSize: nat)
    requires Open(y, first, mss, streamSize) && y.receiver.Buffer().size == 0 && y.sender.una == |y.sender.written|
    ensures Finished(y)
  {
    hide Open, Good, TxOk, T.InStep, R.HeldInStream;
    OpenGood(y, first, mss, streamSize);
    Behind(y, first, mss, streamSize);
    ReadPrefix(y.receiver, y.sender.written, first);
  }

  lemma ReadPrefix(c: R.Receiver, sent: seq<byte>, first: int)
    requires R.Consistent(c, sent, first) && c.Buffer().size == 0
    ensures c.delivered == sent[..c.Position()]
  {}

  // ---- From every state that can be reached ---------------------------------------------

  /** After any run, with whatever losses, there is a continuation in which nothing arrives that was on
      its way, and at whose end all that has been written has been handed over and confirmed. */
  lemma Progress(states: seq<Connection>, events: seq<Event>, first: int, length: nat, windowLength: uint32,
                 mss: uint16, streamSize: nat, i: nat)
    returns (more: seq<Connection>, next: seq<Event>)
    requires 0 < mss <= streamSize && 0 < length <= TWO31 && StreamLength(streamSize) <= TWO31 && Wrap(first) != 0
    requires Run(states, events, first) && i < |states| && !states[i].receiver.failed
    requires states[0] == Start(first, length, windowLength, mss, false, streamSize)
    ensures Run(more, next, first) && more[0] == states[i]
    ensures forall j :: 0 <= j < |next| ==> Late(next[j], |states[i].net|, |states[i].answers|)
    ensures var y := more[|next|];
      y.receiver.delivered == y.sender.written == states[i].sender.written && y.sender.stream.size == 0
  {
    hide Lively, Run, Late;
    StartLively(first, length, windowLength, mss, streamSize);
    RunLively(states, events, first, mss, streamSize, i);
    var x := states[i];
    Behind(x, first, mss, streamSize);
    var y := Finish(x, first, mss, streamSize, |x.net|, |x.answers|);
    more, next :| Path(more, next, x, y, first, |x.net|, |x.answers|);
  }

  // ---- The connection that cannot -------------------------------------------------------

  /** Nothing has been sent or received, and nothing fits. */
  ghost predicate Stuck(x: Connection, streamSize: nat) {
    && x.net == [] && x.answers == [] && x.receiver == R.Start(0, streamSize)
    && x.sender.tx.current == 0 && x.sender.tx.highest == TWO32 - 1 && |x.sender.tx.queue| == |x.sender.tx.tiles|
  }

  lemma {:induction false} GrowUnsent(tx: Tx, left: uint32, position: nat, length: nat, free: seq<nat>)
    requires 0 < tx.mss && position < length && left <= length
    ensures var u := Grow(tx, left, position, length, free).0; |u.queue| - |u.tiles| == |tx.queue| - |tx.tiles|
    decreases left
  {
    if left != 0 && free != [] {
      var k := Min(left, tx.mss);
      GrowUnsent(Append(tx, free[0], k, position), left - k, Advance(position, k, length), length, free[1..]);
    }
  }

  lemma HandStuck(s: T.Sender, free: seq<nat>)
    requires TxOk(s.tx, s.stream)
    ensures var u := T.Hand(s, free).tx;
      |u.queue| - |u.tiles| == |s.tx.queue| - |s.tx.tiles| && u.current == s.tx.current && u.highest == s.tx.highest
  {
    hide QueuesOk, InPlace, Ordered, Grow;
    var r := s.stream;
    var n := r.size - r.mid;
    if n != 0 {
      var (u, k) := Fill(s.tx, n);
      GrowUnsent(u, n - k, Advance(Advance(r.tail, r.mid, |r.view|), k, |r.view|), |r.view|, free);
      GrowEdges(u, n - k, Advance(Advance(r.tail, r.mid, |r.view|), k, |r.view|), |r.view|, free);
    }
  }

  lemma GetStuck(tx: Tx, r: Ring, window: uint32, expired: bool)
    requires TxOk(tx, r) && tx.current == 0 && tx.highest == TWO32 - 1 && |tx.queue| == |tx.tiles|
    ensures TxGet(tx, window, expired) == (tx.(ourSeq := tx.highest), None)
  {
    hide HasSpace, Ordered, Queued, SentFirst;
    NothingPending(tx);
    if tx.tiles != [] {
      RelBound(tx.tiles, tx.current, r, 0);
      StuckAtZero(tx.(ourSeq := tx.highest), tx.tiles[0], window);
    }
  }

  lemma StepStuck(x: Connection, e: Event, x': Connection, first: int, streamSize: nat)
    requires Good(x, first) && Stuck(x, streamSize) && Step(x, e, x', first)
    ensures Stuck(x', streamSize)
  {
    hide Good, TxOk, T.InStep, TxGet, T.Hand, R.Consistent, T.Allowed;
    Usable(x, first);
    match e
    case Hand(free) => HandStuck(x.sender, free);
    case Transmit(window, expired) => GetStuck(x.sender.tx, x.sender.stream, window, expired);
    case _ =>
  }

  /** Over every run of a connection whose first number is 0, nothing is ever sent, acknowledged or handed over. */
  lemma {:induction false} StuckForever(states: seq<Connection>, events: seq<Event>, first: int, length: nat,
                                        windowLength: uint32, mss: uint16, sendFullSize: bool, streamSize: nat, i: nat)
    requires 0 < mss && 0 < length <= TWO31 && StreamLength(streamSize) <= TWO31 && Wrap(first) == 0
    requires Run(states, events, first) && i < |states|
    requires states[0] == Start(first, length, windowLength, mss, sendFullSize, streamSize)
    ensures Stuck(states[i], streamSize)
    decreases i
  {
    hide Good, Step;
    StartGood(first, length, windowLength, mss, sendFullSize, streamSize);
    if i > 0 {
      StuckForever(states, events, first, length, windowLength, mss, sendFullSize, streamSize, i - 1);
      RunGood(states, events, first, i - 1);
      assert StepOf(states[i - 1], events[i - 1], states[i], first);
      StepStuck(states[i - 1], events[i - 1], states[i], first, streamSize);
    }
  }
}
