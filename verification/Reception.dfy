/** Receiving data on a TCP socket: the window's verdict glued to the receive stream
    (prvStoreRxData in FreeRTOS_TCP_IP.c, lTCPAddRxdata and FreeRTOS_recv in
    FreeRTOS_Sockets.c).

    `sent` is everything the peer sends on the connection and `first` the sequence number of
    its first byte; both belong to the statement of the theorems, not to the program. */
module Reception {
  import opened Common
  import opened Seq32
  import opened StreamBuffers
  import opened RxWindow

  /** The receiving half of a socket, with the bytes already handed to its owner. */
  datatype Receiver = Receiver(rx: Rx, stream: Option<Ring>, streamSize: nat, delivered: seq<byte>,
                               failed: bool) {

    /** Free space as prvStoreRxData sees it. */
    function Space(): nat
      requires stream.Some? ==> stream.value.size < |stream.value.view|
    {
      if stream.Some? then stream.value.Space() else streamSize
    }

    /** The stream, or the one that would be created. */
    function Buffer(): Ring {
      if stream.Some? then stream.value else EmptyRing(StreamLength(streamSize))
    }

    /** The number of bytes the peer has had accepted in sequence. */
    function Position(): nat {
      |delivered| + Buffer().size
    }
  }

  // ---- The steps ------------------------------------------------------------------------

  /** lTCPAddRxdata: the stream is created on demand, and that may fail. */
  function AddRxData(c: Receiver, offset: nat, data: Option<seq<byte>>, count: nat, memory: bool): (Receiver, int)
    requires c.Buffer().size < |c.Buffer().view|
    requires data.Some? ==> count <= |data.value|
  {
    var stored: int := if c.stream.None? && !memory then -1 else c.Buffer().Fits(offset, count);
    if stored == -1 then (c.(failed := true), stored)
    else (c.(stream := Some(c.Buffer().Add(offset, data, count))), stored)
  }

  /** What prvStoreRxData does with the window's verdict. */
  function Deposit(c: Receiver, offset: int, data: seq<byte>, memory: bool): (r: (Receiver, int))
    requires c.Buffer().size < |c.Buffer().view|
  {
    var (d, result) :=
      if offset < 0 then (c, 0)
      else
        var (d, stored) := AddRxData(c, offset, Some(data), |data|, memory);
        (d, if stored != |data| then -1 else 0);
    if result == 0 && d.rx.userDataLength > 0 then
      (AddRxData(d, 0, None, d.rx.userDataLength, memory).0.(rx := d.rx.(userDataLength := 0)), 0)
    else (d, result)
  }

  /** prvStoreRxData: a segment arrives. available: a descriptor is free; memory: a stream can
      be allocated. */
  function StoreRxData(c: Receiver, seqNo: uint32, data: seq<byte>, available: bool, memory: bool): (r: (Receiver, int))
    requires c.Buffer().size < |c.Buffer().view| && |data| < 0x1_0000
    requires Stored(c.rx.segments, c.rx.current, 1, c.Space())
  {
    if data == [] then (c.(rx := c.rx.(sack := None)), 0)
    else
      var (rx, offset) := Check(c.rx, seqNo, |data|, c.Space(), available);
      Deposit(c.(rx := rx), offset, data, memory)
  }

  /** FreeRTOS_recv hands over up to n bytes. */
  function Receive(c: Receiver, n: nat): Receiver
    requires c.stream.Some? ==> c.stream.value.Ok()
  {
    if c.stream.None? then c
    else
      var m := Min(n, c.stream.value.size);
      c.(delivered := c.delivered + c.stream.value.Contents()[..m], stream := Some(c.stream.value.Drop(m)))
  }

  // ---- What holds in every state --------------------------------------------------------

  /** Every out-of-order byte that is remembered lies in the stream at its place. */
  ghost predicate HeldInStream(list: seq<Piece>, base: uint32, r: Ring, sent: seq<byte>, position: nat)
    requires r.size < |r.view|
  {
    forall y :: Held(list, base, y) ==>
      0 < y < |r.view| - r.size && position + y < |sent| && r.view[r.size + y] == sent[position + y]
  }

  /** The bytes handed over plus the readable ones are a prefix of what the peer sent. */
  ghost predicate Reassembled(delivered: seq<byte>, r: Ring, sent: seq<byte>)
    requires r.size <= |r.view|
  {
    |delivered| + r.size <= |sent| && delivered + r.Contents() == sent[..|delivered| + r.size]
  }

  /** Window and stream are in step: the next expected number belongs to the head of the
      stream, and what is remembered ahead of it is in place. */
  ghost predicate InStep(list: seq<Piece>, current: uint32, r: Ring, delivered: seq<byte>, sent: seq<byte>, first: int)
  {
    && r.Ok() && |r.view| <= TWO31
    && Reassembled(delivered, r, sent)
    && current == Wrap(first + |delivered| + r.size)
    && Stored(list, current, 1, r.Space())
    && HeldInStream(list, current, r, sent, |delivered| + r.size)
  }

  ghost predicate Consistent(c: Receiver, sent: seq<byte>, first: int)
  {
    && !c.failed
    && (c.stream.None? ==> c.rx.segments == [] && c.delivered == [])
    && c.rx.userDataLength == 0
    && InStep(c.rx.segments, c.rx.current, c.Buffer(), c.delivered, sent, first)
  }

  /** The place in the peer's stream that an arriving sequence number stands for. */
  function PlaceOf(c: Receiver, seqNo: uint32): int {
    c.Position() + Int32(Sub(seqNo, c.rx.current))
  }

  /** The segment carries the peer's bytes for its sequence number. */
  ghost predicate Honest(c: Receiver, sent: seq<byte>, seqNo: uint32, data: seq<byte>) {
    var p := PlaceOf(c, seqNo);
    0 <= p && p + |data| <= |sent| && data == sent[p..p + |data|]
  }

  /** No stored segment shares a byte with the arriving one, which lies ahead. */
  ghost predicate Clear(c: Receiver, seqNo: uint32, length: uint32) {
    && Sub(seqNo, c.rx.current) < TWO31
    && forall i :: 0 <= i < |c.rx.segments| ==> Apart(c.rx.segments[i], Piece(seqNo, length), c.rx.current)
  }

  /** The arrivals the window can deal with. The expected segment may overlap stored ones if
      the run of stored segments that starts inside it reaches at least to its end; a segment
      that would be remembered must lie ahead and be clear of the stored ones. */
  ghost predicate Admissible(c: Receiver, seqNo: uint32, length: uint32, available: bool)
    requires c.Buffer().size < |c.Buffer().view|
    requires Stored(c.rx.segments, c.rx.current, 1, c.Space())
  {
    var distance := Int32(Sub(Add(seqNo, length), c.rx.current));
    if seqNo == c.rx.current then
      length <= c.Space() ==> InOrderEnd(c.rx.segments, c.rx.current, length, c.Space()) >= length
    else if c.rx.current == Add(seqNo, 1) || distance <= 0 || distance > c.Space() then true
    else Find(c.rx.segments, seqNo).Some? || !available || Clear(c, seqNo, length)
  }

  // ---- Creating the stream --------------------------------------------------------------

  lemma SpaceFits(c: Receiver)
    requires c.Buffer().Ok()
    ensures c.Space() <= c.Buffer().Space()
    ensures c.stream.None? ==> c.Buffer().Contents() == []
  {}

  lemma StoredInSpace(c: Receiver, sent: seq<byte>, first: int)
    requires Consistent(c, sent, first)
    ensures Stored(c.rx.segments, c.rx.current, 1, c.Space())
  {}

  // ---- Accepted means stored in full ----------------------------------------------------

  /** Whatever the window accepts fits the stream: all its bytes are stored. */
  lemma AcceptedFits(c: Receiver, sent: seq<byte>, first: int, seqNo: uint32, length: uint32, available: bool)
    requires Consistent(c, sent, first) && 0 < length < 0x1_0000
    requires Stored(c.rx.segments, c.rx.current, 1, c.Space())
    ensures var offset := Check(c.rx, seqNo, length, c.Space(), available).1;
      offset >= 0 ==> offset + length <= c.Space() && c.Buffer().Fits(offset, length) == length
  {
    SpaceFits(c);
  }

  // ---- The expected segment -------------------------------------------------------------

  /** Writing data at the head and then moving the head over the held bytes behind it. */
  lemma AppendView(b: Ring, data: seq<byte>, e: nat)
    requires b.Ok() && 0 < |data| <= e <= b.Space()
    ensures var r := b.Add(0, Some(data), |data|).Add(0, None, e - |data|);
      && r.Ok() && r.size == b.size + e
      && r.view == b.view[..b.size] + data + b.view[b.size + |data|..]
  {
    var r1 := b.Add(0, Some(data), |data|);
    assert data[..|data|] == data;
    assert r1.view == b.view[..b.size] + data + b.view[b.size + |data|..];
    assert r1.size == b.size + |data| && r1.Ok();
  }

  lemma AppendInOrder(b: Ring, data: seq<byte>, e: nat, sent: seq<byte>, position: nat)
    requires b.Ok() && 0 < |data| <= e <= b.Space() && position + e <= |sent|
    requires data == sent[position..position + |data|]
    requires b.view[b.size + |data|..b.size + e] == sent[position + |data|..position + e]
    ensures var r := b.Add(0, Some(data), |data|).Add(0, None, e - |data|);
      && r.Ok() && |r.view| == |b.view| && r.size == b.size + e
      && r.Contents() == b.Contents() + sent[position..position + e]
      && forall k :: r.size <= k < |r.view| ==> r.view[k] == b.view[k]
  {
    AppendView(b, data, e);
    AppendedView(b, b.Add(0, Some(data), |data|).Add(0, None, e - |data|), data, e, sent, position);
  }

  lemma AppendedView(b: Ring, r: Ring, data: seq<byte>, e: nat, sent: seq<byte>, position: nat)
    requires |data| <= e && b.size + e <= |b.view| && position + e <= |sent|
    requires data == sent[position..position + |data|]
    requires b.view[b.size + |data|..b.size + e] == sent[position + |data|..position + e]
    requires r.size == b.size + e && r.view == b.view[..b.size] + data + b.view[b.size + |data|..]
    ensures |r.view| == |b.view| && r.Contents() == b.Contents() + sent[position..position + e]
    ensures forall k :: r.size <= k < |r.view| ==> r.view[k] == b.view[k]
  {
    var n := b.size + |data|;
    assert r.view[..b.size + e] == b.view[..b.size] + data + b.view[n..b.size + e];
    assert sent[position..position + e] == data + sent[position + |data|..position + e];
  }

  lemma HeldAfterInOrder(list: seq<Piece>, rest: seq<Piece>, base: uint32, e: nat, length: nat, limit: nat,
                         b: Ring, r: Ring, sent: seq<byte>, position: nat)
    requires b.size < |b.view| && e <= limit && length <= e
    requires HeldInStream(list, base, b, sent, position) && Settled(list, rest, base, length, e, limit)
    requires r.size == b.size + e < |r.view| == |b.view|
    requires forall k :: r.size <= k < |r.view| ==> r.view[k] == b.view[k]
    ensures HeldInStream(rest, Add(base, e), r, sent, position + e)
  {
    hide Held, Add;
    StoredRebase(rest, base, e, limit);
    forall y | Held(rest, Add(base, e), y)
      ensures 0 < y < |r.view| - r.size && position + e + y < |sent| && r.view[r.size + y] == sent[position + e + y]
    {
      HeldWithin(rest, Add(base, e), limit - e, y);
      HeldStill(list, rest, base, y + e);
      assert b.view[b.size + (y + e)] == sent[position + (y + e)];
    }
  }

  lemma HeldWithin(list: seq<Piece>, base: uint32, limit: nat, y: int)
    requires Stored(list, base, 1, limit) && Held(list, base, y)
    ensures 0 < y < limit
  {}

  lemma HeldStill(list: seq<Piece>, rest: seq<Piece>, base: uint32, y: int)
    requires forall k :: 0 <= k < |rest| ==> rest[k] in list
    requires Held(rest, base, y)
    ensures Held(list, base, y)
  {}

  /** The window's verdict on an expected segment. */
  function Accepted(c: Receiver, length: uint32): Rx {
    InOrder(c.rx.(sack := None, userDataLength := 0), length)
  }

  /** The state after an expected segment: the data goes in at the head, then the head passes
      the bytes that were already there. */
  function AfterInOrder(c: Receiver, rx: Rx, data: seq<byte>): Receiver
    requires c.Buffer().size < |c.Buffer().view|
  {
    Receiver(rx.(userDataLength := 0),
             Some(c.Buffer().Add(0, Some(data), |data|).Add(0, None, rx.userDataLength)),
             c.streamSize, c.delivered, c.failed)
  }

  lemma DepositInOrder(c: Receiver, rx: Rx, data: seq<byte>, memory: bool)
    requires c.Buffer().Ok() && 0 < |data| <= c.Buffer().Space() && (c.stream.Some? || memory)
    ensures Deposit(c.(rx := rx), 0, data, memory) == (AfterInOrder(c, rx, data), 0)
  {
    assert c.(rx := rx).Buffer() == c.Buffer();
  }

  /** The held bytes behind an expected segment are the peer's. */
  lemma HeldBehind(c: Receiver, sent: seq<byte>, length: uint32, limit: nat)
    requires c.Buffer().Ok() && length <= limit <= c.Buffer().Space()
    requires Stored(c.rx.segments, c.rx.current, 1, limit)
    requires HeldInStream(c.rx.segments, c.rx.current, c.Buffer(), sent, c.Position())
    requires c.Position() + length <= |sent|
    ensures var e := InOrderEnd(c.rx.segments, c.rx.current, length, limit);
      e >= length ==>
        && c.Position() + e <= |sent|
        && c.Buffer().view[c.Buffer().size + length..c.Buffer().size + e]
           == sent[c.Position() + length..c.Position() + e]
  {
    hide InOrderEnd, Held, Stored;
    var e := InOrderEnd(c.rx.segments, c.rx.current, length, limit);
    var b, p := c.Buffer(), c.Position();
    if e > length {
      InOrderHeld(c.rx.segments, c.rx.current, length, limit, e - 1);
      var v, s := b.view[b.size + length..b.size + e], sent[p + length..p + e];
      forall k | 0 <= k < |v| ensures v[k] == s[k] {
        InOrderHeld(c.rx.segments, c.rx.current, length, limit, length + k);
        assert b.view[b.size + (length + k)] == sent[p + (length + k)];
      }
    }
  }

  /** Window and stream stay in step over an expected segment that moves both by e. */
  lemma InStepInOrder(list: seq<Piece>, rest: seq<Piece>, current: uint32, b: Ring, r: Ring,
                      delivered: seq<byte>, sent: seq<byte>, first: int, e: nat, length: nat, limit: nat, p: nat)
    requires p == |delivered| + b.size && p + e <= |sent|
    requires InStep(list, current, b, delivered, sent, first)
    requires length <= e <= limit <= b.Space() && Settled(list, rest, current, length, e, limit)
    requires r.Ok() && |r.view| == |b.view| && r.size == b.size + e
    requires r.Contents() == b.Contents() + sent[p..p + e]
    requires forall k :: r.size <= k < |r.view| ==> r.view[k] == b.view[k]
    ensures InStep(rest, Add(current, e), r, delivered, sent, first)
  {
    assert delivered + r.Contents() == (delivered + b.Contents()) + sent[p..p + e];
    StoredRebase(rest, current, e, limit);
    StoredMore(rest, Add(current, e), limit - e, r.Space());
    HeldAfterInOrder(list, rest, current, e, length, limit, b, r, sent, p);
    WrapAdd(first + p, e);
  }

  lemma HonestHere(c: Receiver, sent: seq<byte>, data: seq<byte>)
    requires Honest(c, sent, c.rx.current, data)
    ensures var p := c.Position(); p + |data| <= |sent| && data == sent[p..p + |data|]
  {}

  /** The expected segment, when the stored run that starts inside it reaches its end. */
  lemma InOrderConsistent(c: Receiver, sent: seq<byte>, first: int, data: seq<byte>, rx: Rx, e: nat)
    requires Consistent(c, sent, first) && Honest(c, sent, c.rx.current, data)
    requires 0 < |data| <= e <= c.Space() && |data| < 0x1_0000
    requires Stored(c.rx.segments, c.rx.current, 1, c.Space())
    requires InOrderEnd(c.rx.segments, c.rx.current, |data|, c.Space()) == e
    requires rx.current == Add(c.rx.current, e) && rx.userDataLength == e - |data|
    requires Settled(c.rx.segments, rx.segments, c.rx.current, |data|, e, c.Space())
    ensures Consistent(AfterInOrder(c, rx, data), sent, first)
    ensures AfterInOrder(c, rx, data).Position() == c.Position() + e
  {
    hide Consistent, InStep, HeldInStream, Settled, Stored, InOrderEnd, Wrap, Honest, AfterInOrder;
    ConsistentParts(c, sent, first);
    SpaceFits(c);
    HonestHere(c, sent, data);
    var b, p := c.Buffer(), c.Position();
    HeldBehind(c, sent, |data|, c.Space());
    AppendInOrder(b, data, e, sent, p);
    InStepInOrder(c.rx.segments, rx.segments, c.rx.current, b,
                  b.Add(0, Some(data), |data|).Add(0, None, e - |data|),
                  c.delivered, sent, first, e, |data|, c.Space(), p);
    AfterConsistent(c, sent, first, data, rx);
  }

  lemma ConsistentParts(c: Receiver, sent: seq<byte>, first: int)
    requires Consistent(c, sent, first)
    ensures !c.failed && c.Buffer().Ok()
    ensures InStep(c.rx.segments, c.rx.current, c.Buffer(), c.delivered, sent, first)
    ensures HeldInStream(c.rx.segments, c.rx.current, c.Buffer(), sent, c.Position())
  {
    hide HeldInStream;
  }

  lemma AfterConsistent(c: Receiver, sent: seq<byte>, first: int, data: seq<byte>, rx: Rx)
    requires c.Buffer().size < |c.Buffer().view| && !c.failed && 0 < |data|
    requires c.Buffer().Add(0, Some(data), |data|).size < |c.Buffer().Add(0, Some(data), |data|).view|
    requires InStep(rx.segments, rx.current, c.Buffer().Add(0, Some(data), |data|).Add(0, None, rx.userDataLength),
                    c.delivered, sent, first)
    ensures Consistent(AfterInOrder(c, rx, data), sent, first)
    ensures AfterInOrder(c, rx, data).Position()
         == |c.delivered| + c.Buffer().Add(0, Some(data), |data|).Add(0, None, rx.userDataLength).size
  {
    hide InStep;
  }

  /** The expected segment, when that run stops short: the next expected number and the head of
      the stream part company. */
  lemma InOrderBroken(c: Receiver, sent: seq<byte>, first: int, data: seq<byte>, rx: Rx, e: nat)
    requires Consistent(c, sent, first)
    requires 0 < |data| <= c.Space() && e < |data| < 0x1_0000
    requires rx.current == Add(c.rx.current, e) && rx.userDataLength == TWO32 + e - |data|
    ensures AfterInOrder(c, rx, data).Position() == c.Position() + c.Buffer().Space()
    ensures rx.current == Wrap(first + c.Position() + e)
    ensures !Consistent(AfterInOrder(c, rx, data), sent, first)
  {
    SpaceFits(c);
    WrapAdd(first + c.Position(), e);
    HeadToTheEnd(c.Buffer(), data, rx.userDataLength);
    OutOfStep(AfterInOrder(c, rx, data), sent, first, first + c.Position() + e);
  }

  lemma OutOfStep(c: Receiver, sent: seq<byte>, first: int, n: int)
    requires c.rx.current == Wrap(n) && n < first + c.Position() < n + TWO32
    ensures !Consistent(c, sent, first)
  {}

  /** An expected segment that fits keeps window and stream in step exactly when the run of
      stored segments that starts inside it reaches its end; then both move by the same count. */
  lemma InOrderExact(c: Receiver, sent: seq<byte>, first: int, data: seq<byte>)
    requires Consistent(c, sent, first) && Honest(c, sent, c.rx.current, data)
    requires 0 < |data| <= c.Space() && |data| < 0x1_0000
    requires Stored(c.rx.segments, c.rx.current, 1, c.Space())
    ensures var c' := AfterInOrder(c, Accepted(c, |data|), data);
      var e := InOrderEnd(c.rx.segments, c.rx.current, |data|, c.Space());
      && (Consistent(c', sent, first) <==> e >= |data|)
      && c'.rx.current == Wrap(first + c.Position() + e)
      && c'.Position() == c.Position() + (if e >= |data| then e else c.Buffer().Space())
  {
    hide Settled, InOrder, HeldInStream, Reassembled, Held, Stored;
    SpaceFits(c);
    var rx := Accepted(c, |data|);
    var e := InOrderEnd(c.rx.segments, c.rx.current, |data|, c.Space());
    InOrderEffect(c.rx.(sack := None, userDataLength := 0), |data|, c.Space());
    if e >= |data| {
      InOrderConsistent(c, sent, first, data, rx, e);
    } else {
      InOrderBroken(c, sent, first, data, rx, e);
    }
  }

  /** Moving the head by more than the space takes it as far as the space goes. */
  lemma HeadToTheEnd(b: Ring, data: seq<byte>, n: nat)
    requires b.Ok() && 0 < |data| <= b.Space() <= n
    ensures b.Add(0, Some(data), |data|).Add(0, None, n).size == |b.view| - 1
  {}

  lemma StoredMore(list: seq<Piece>, base: uint32, limit: nat, more: nat)
    requires Stored(list, base, 1, limit) && limit <= more < TWO31
    ensures Stored(list, base, 1, more)
  {}

  lemma ExpectedIsDeposited(c: Receiver, data: seq<byte>, available: bool, memory: bool)
    requires c.Buffer().Ok() && 0 < |data| <= c.Space() && |data| < 0x1_0000 && (c.stream.Some? || memory)
    requires Stored(c.rx.segments, c.rx.current, 1, c.Space())
    ensures StoreRxData(c, c.rx.current, data, available, memory)
         == (AfterInOrder(c, Accepted(c, |data|), data), 0)
  {
    SpaceFits(c);
    DepositInOrder(c, Accepted(c, |data|), data, memory);
  }

  // ---- A segment ahead of the expected one ----------------------------------------------

  /** Writing data k positions ahead of the head. */
  lemma WriteAhead(b: Ring, k: nat, data: seq<byte>)
    requires b.Ok() && 0 < k && 0 < |data| && k + |data| <= b.Space()
    ensures var r := b.Add(k, Some(data), |data|);
      && r.Ok() && r.size == b.size && |r.view| == |b.view| && r.Contents() == b.Contents()
      && forall i :: b.size <= i < |b.view| ==>
           r.view[i] == (if b.size + k <= i < b.size + k + |data| then data[i - b.size - k] else b.view[i])
  {}

  lemma StoredOneMore(list: seq<Piece>, base: uint32, limit: nat, p: Piece)
    requires Stored(list, base, 1, limit) && Within(p, base, 1, limit)
    requires forall i :: 0 <= i < |list| ==> Apart(list[i], p, base)
    ensures Stored(list + [p], base, 1, limit)
  {}

  /** Window and stream stay in step over a segment stored ahead. */
  lemma InStepOutOfOrder(list: seq<Piece>, current: uint32, b: Ring, delivered: seq<byte>, sent: seq<byte>,
                         first: int, p: Piece, data: seq<byte>)
    requires InStep(list, current, b, delivered, sent, first)
    requires Within(p, current, 1, b.Space()) && p.length == |data|
    requires forall i :: 0 <= i < |list| ==> Apart(list[i], p, current)
    requires |delivered| + b.size + End(p, current) <= |sent|
    requires data == sent[|delivered| + b.size + Offset(p, current)..|delivered| + b.size + End(p, current)]
    ensures InStep(list + [p], current, b.Add(Offset(p, current), Some(data), |data|), delivered, sent, first)
  {
    StoredOneMore(list, current, b.Space(), p);
    WriteAhead(b, Offset(p, current), data);
    HeldOneMore(list, current, b.Space(), p, b, data, sent, |delivered| + b.size);
  }

  lemma HeldOneMore(list: seq<Piece>, base: uint32, limit: nat, p: Piece, b: Ring, data: seq<byte>,
                    sent: seq<byte>, position: nat)
    requires b.Ok() && Within(p, base, 1, limit) && limit <= b.Space() && p.length == |data|
    requires HeldInStream(list, base, b, sent, position)
    requires position + End(p, base) <= |sent|
    requires data == sent[position + Offset(p, base)..position + End(p, base)]
    ensures HeldInStream(list + [p], base, b.Add(Offset(p, base), Some(data), |data|), sent, position)
  {
    var k := Offset(p, base);
    var r := b.Add(k, Some(data), |data|);
    WriteAhead(b, k, data);
    forall y | Held(list + [p], base, y)
      ensures 0 < y < |r.view| - r.size && position + y < |sent| && r.view[r.size + y] == sent[position + y]
    {
      HeldEither(list, p, base, y);
      HeldNow(list, base, p, b, r, data, sent, position, y);
    }
  }

  lemma HeldEither(list: seq<Piece>, p: Piece, base: uint32, y: int)
    requires Held(list + [p], base, y)
    ensures Offset(p, base) <= y < End(p, base) || Held(list, base, y)
  {
    var i :| 0 <= i < |list + [p]| && Offset((list + [p])[i], base) <= y < End((list + [p])[i], base);
    if i < |list| {
      assert (list + [p])[i] == list[i];
    }
  }

  lemma HeldNow(list: seq<Piece>, base: uint32, p: Piece, b: Ring, r: Ring, data: seq<byte>, sent: seq<byte>,
                position: nat, y: int)
    requires b.size < |b.view| && b.size + End(p, base) < |b.view| && 0 < Offset(p, base) && p.length == |data|
    requires HeldInStream(list, base, b, sent, position) && position + End(p, base) <= |sent|
    requires data == sent[position + Offset(p, base)..position + End(p, base)]
    requires r.size == b.size && |r.view| == |b.view|
    requires forall i :: b.size <= i < |b.view| ==>
      r.view[i] == (if b.size + Offset(p, base) <= i < b.size + End(p, base)
                    then data[i - b.size - Offset(p, base)] else b.view[i])
    requires Offset(p, base) <= y < End(p, base) || Held(list, base, y)
    ensures 0 < y < |r.view| - r.size && position + y < |sent| && r.view[r.size + y] == sent[position + y]
  {
    hide Held, Sub;
    var k := Offset(p, base);
    if k <= y < k + |data| {
      assert data[y - k] == sent[position + y];
    } else {
      assert b.view[b.size + y] == sent[position + y];
    }
  }

  /** The state after a segment has been remembered and, if it lies ahead, stored. */
  function AfterOutOfOrder(c: Receiver, seqNo: uint32, data: seq<byte>, sack: Option<Block>): Receiver
    requires c.Buffer().size < |c.Buffer().view| && |data| < TWO32
  {
    var k := Sub(seqNo, c.rx.current);
    c.(rx := c.rx.(sack := sack, userDataLength := 0, segments := c.rx.segments + [Piece(seqNo, |data|)]),
       stream := if k < TWO31 then Some(c.Buffer().Add(k, Some(data), |data|)) else c.stream)
  }

  lemma OutOfOrderConsistent(c: Receiver, sent: seq<byte>, first: int, seqNo: uint32, data: seq<byte>,
                             sack: Option<Block>)
    requires Consistent(c, sent, first) && Honest(c, sent, seqNo, data) && 0 < |data| < 0x1_0000
    requires seqNo != c.rx.current && Clear(c, seqNo, |data|)
    requires Sub(seqNo, c.rx.current) + |data| <= c.Space()
    ensures Consistent(AfterOutOfOrder(c, seqNo, data, sack), sent, first)
    ensures AfterOutOfOrder(c, seqNo, data, sack).Position() == c.Position()
  {
    SpaceFits(c);
    InStepOutOfOrder(c.rx.segments, c.rx.current, c.Buffer(), c.delivered, sent, first, Piece(seqNo, |data|), data);
  }

  lemma OutOfOrderBroken(c: Receiver, sent: seq<byte>, first: int, seqNo: uint32, data: seq<byte>, sack: Option<Block>)
    requires Consistent(c, sent, first) && 0 < |data| < 0x1_0000
    requires !Clear(c, seqNo, |data|)
    ensures !Consistent(AfterOutOfOrder(c, seqNo, data, sack), sent, first)
  {
    var c' := AfterOutOfOrder(c, seqNo, data, sack);
    var list, base := c.rx.segments, c.rx.current;
    var n := |list|;
    assert c'.rx.segments[n] == Piece(seqNo, |data|);
    if Sub(seqNo, base) < TWO31 {
      var i :| 0 <= i < n && !Apart(list[i], Piece(seqNo, |data|), base);
      assert c'.rx.segments[i] == list[i];
      NotStored(c'.rx.segments, base, i, n, c'.Buffer());
    } else {
      NotWithin(c'.rx.segments, base, n, c'.Buffer());
    }
  }

  lemma NotStored(list: seq<Piece>, base: uint32, i: nat, j: nat, r: Ring)
    requires i < |list| && j < |list| && i != j && !Apart(list[i], list[j], base) && r.size < |r.view|
    ensures !Stored(list, base, 1, r.Space())
  {}

  lemma NotWithin(list: seq<Piece>, base: uint32, i: nat, r: Ring)
    requires i < |list| && Offset(list[i], base) >= TWO31 && r.size < |r.view|
    ensures !Stored(list, base, 1, r.Space())
  {}

  /** Outcome of the window's check for a segment that is not the expected one. */
  lemma OutOfOrderOutcome(c: Receiver, sent: seq<byte>, first: int, seqNo: uint32, data: seq<byte>, available: bool,
                          memory: bool)
    requires Consistent(c, sent, first) && 0 < |data| < 0x1_0000 && (c.stream.Some? || memory)
    requires Stored(c.rx.segments, c.rx.current, 1, c.Space())
    requires seqNo != c.rx.current
    ensures var (c', result) := StoreRxData(c, seqNo, data, available, memory);
      var d := Int32(Sub(Add(seqNo, |data|), c.rx.current));
      if c.rx.current == Add(seqNo, 1) || d <= 0 || d > c.Space() || Find(c.rx.segments, seqNo).Some? || !available
      then c' == c.(rx := c.rx.(sack := c'.rx.sack)) && result == 0
      else c' == AfterOutOfOrder(c, seqNo, data, c'.rx.sack) && result == 0
           && (Sub(seqNo, c.rx.current) < TWO31 ==> Sub(seqNo, c.rx.current) + |data| <= c.Space())
  {
    SpaceFits(c);
  }

  // ---- Every arrival --------------------------------------------------------------------

  /** The exact condition: an honest segment leaves window and stream in step if and only if it
      is admissible. */
  lemma StepExact(c: Receiver, sent: seq<byte>, first: int, seqNo: uint32, data: seq<byte>, available: bool,
                  memory: bool)
    requires Consistent(c, sent, first) && Honest(c, sent, seqNo, data)
    requires 0 < |data| < 0x1_0000 && (c.stream.Some? || memory)
    requires Stored(c.rx.segments, c.rx.current, 1, c.Space())
    ensures Consistent(StoreRxData(c, seqNo, data, available, memory).0, sent, first)
       <==> Admissible(c, seqNo, |data|, available)
  {
    SpaceFits(c);
    if seqNo == c.rx.current {
      if |data| <= c.Space() {
        ExpectedIsDeposited(c, data, available, memory);
        InOrderExact(c, sent, first, data);
      }
    } else {
      OutOfOrderOutcome(c, sent, first, seqNo, data, available, memory);
      var c' := StoreRxData(c, seqNo, data, available, memory).0;
      if Clear(c, seqNo, |data|) {
        if c' == AfterOutOfOrder(c, seqNo, data, c'.rx.sack) {
          OutOfOrderConsistent(c, sent, first, seqNo, data, c'.rx.sack);
        }
      } else {
        OutOfOrderBroken(c, sent, first, seqNo, data, c'.rx.sack);
      }
    }
  }

  /** An admissible segment never takes the next expected number back, hands nothing over by
      itself, and is reported as dealt with. */
  lemma StepForward(c: Receiver, sent: seq<byte>, first: int, seqNo: uint32, data: seq<byte>, available: bool,
                    memory: bool)
    requires Consistent(c, sent, first) && Honest(c, sent, seqNo, data)
    requires 0 < |data| < 0x1_0000 && (c.stream.Some? || memory)
    requires Stored(c.rx.segments, c.rx.current, 1, c.Space())
    requires Admissible(c, seqNo, |data|, available)
    ensures var (c', result) := StoreRxData(c, seqNo, data, available, memory);
      result == 0 && c'.delivered == c.delivered && c'.Position() >= c.Position()
  {
    SpaceFits(c);
    if seqNo == c.rx.current {
      if |data| <= c.Space() {
        ExpectedIsDeposited(c, data, available, memory);
        InOrderExact(c, sent, first, data);
      }
    } else {
      OutOfOrderOutcome(c, sent, first, seqNo, data, available, memory);
      var c' := StoreRxData(c, seqNo, data, available, memory).0;
      if c' == AfterOutOfOrder(c, seqNo, data, c'.rx.sack) && Clear(c, seqNo, |data|) {
        OutOfOrderConsistent(c, sent, first, seqNo, data, c'.rx.sack);
      }
    }
  }

  lemma HeldAfterRead(list: seq<Piece>, base: uint32, b: Ring, m: nat, sent: seq<byte>, position: nat)
    requires b.Ok() && m <= b.size && HeldInStream(list, base, b, sent, position)
    ensures HeldInStream(list, base, b.Drop(m), sent, position)
  {
    hide Held;
    var r := b.Drop(m);
    forall y | Held(list, base, y)
      ensures 0 < y < |r.view| - r.size && position + y < |sent| && r.view[r.size + y] == sent[position + y]
    {
      assert r.view[r.size + y] == b.view[b.size + y];
    }
  }

  lemma ReassembledAfterRead(delivered: seq<byte>, b: Ring, m: nat, sent: seq<byte>)
    requires b.Ok() && m <= b.size && Reassembled(delivered, b, sent)
    ensures Reassembled(delivered + b.Contents()[..m], b.Drop(m), sent)
    ensures b.Drop(m).Ok() && b.Drop(m).size == b.size - m && |b.Drop(m).view| == |b.view|
  {
    var r := b.Drop(m);
    assert r.Contents() == b.Contents()[m..];
    assert b.Contents() == b.Contents()[..m] + b.Contents()[m..];
  }

  /** Handing bytes over keeps window and stream in step. */
  lemma ReadStep(c: Receiver, sent: seq<byte>, first: int, n: nat)
    requires Consistent(c, sent, first)
    ensures Consistent(Receive(c, n), sent, first)
    ensures Receive(c, n).Position() == c.Position()
    ensures |Receive(c, n).delivered| == |c.delivered| + Min(n, c.Buffer().size)
  {
    hide HeldInStream, Reassembled, Stored;
    if c.stream.Some? {
      var b := c.stream.value;
      var m := Min(n, b.size);
      var r := b.Drop(m);
      ReassembledAfterRead(c.delivered, b, m, sent);
      StoredMore(c.rx.segments, c.rx.current, b.Space(), r.Space());
      HeldAfterRead(c.rx.segments, c.rx.current, b, m, sent, c.Position());
    }
  }

  // ---- Every run ------------------------------------------------------------------------

  datatype Event =
    | Arrive(seqNo: uint32, data: seq<byte>, available: bool, memory: bool)
    | Read(n: nat)

  /** A socket whose stream could not be allocated is closed and gets no more segments. */
  ghost predicate Sound(c: Receiver, sent: seq<byte>, first: int) {
    if c.failed then c.stream == None && c.delivered == []
    else Consistent(c, sent, first)
  }

  /** One event: an honest and admissible segment of any place, order or number of copies
      arrives, or the owner of the socket reads. */
  ghost predicate Step(c: Receiver, e: Event, c': Receiver, sent: seq<byte>, first: int)
    requires Sound(c, sent, first)
  {
    match e
    case Read(n) => c' == Receive(c, n)
    case Arrive(seqNo, data, available, memory) =>
      if c.failed then c' == c
      else
        StoredInSpace(c, sent, first);
        && |data| < 0x1_0000
        && (data != [] ==> Honest(c, sent, seqNo, data) && Admissible(c, seqNo, |data|, available))
        && c' == StoreRxData(c, seqNo, data, available, memory).0
  }

  /** What has been handed over stays, a closed socket stays closed, and on an open one the next
      expected number does not move back. */
  ghost predicate Forward(c: Receiver, c': Receiver) {
    && c.delivered <= c'.delivered && (c.failed ==> c'.failed)
    && (!c'.failed ==> c'.Position() >= c.Position())
  }

  lemma ForwardTransitive(a: Receiver, b: Receiver, c: Receiver)
    requires Forward(a, b) && Forward(b, c)
    ensures Forward(a, c)
  {}

  lemma StepSound(c: Receiver, e: Event, c': Receiver, sent: seq<byte>, first: int)
    requires Sound(c, sent, first) && Step(c, e, c', sent, first)
    ensures Sound(c', sent, first) && Forward(c, c')
  {
    match e
    case Read(n) =>
      if !c.failed {
        ReadStep(c, sent, first, n);
      }
    case Arrive(seqNo, data, available, memory) =>
      if !c.failed {
        StoredInSpace(c, sent, first);
        if data != [] {
          if c.stream.Some? || memory {
            StepExact(c, sent, first, seqNo, data, available, memory);
            StepForward(c, sent, first, seqNo, data, available, memory);
          } else {
            NoMemory(c, sent, first, seqNo, data, available);
          }
        }
      }
  }

  /** Without memory for the stream the socket is closed if and only if the window accepts the segment;
      nothing has been handed over by then. */
  lemma NoMemory(c: Receiver, sent: seq<byte>, first: int, seqNo: uint32, data: seq<byte>, available: bool)
    requires Consistent(c, sent, first) && c.stream.None? && 0 < |data| < 0x1_0000
    requires Stored(c.rx.segments, c.rx.current, 1, c.Space())
    requires Admissible(c, seqNo, |data|, available)
    ensures Sound(StoreRxData(c, seqNo, data, available, false).0, sent, first)
    ensures var (c', result) := StoreRxData(c, seqNo, data, available, false);
      && c'.delivered == c.delivered == [] && c'.stream == None && (!c'.failed ==> c'.Position() == c.Position())
      && (c'.failed <==> Check(c.rx, seqNo, |data|, c.Space(), available).1 >= 0)
      && result == (if c'.failed then -1 else 0)
  {
    SpaceFits(c);
  }

  ghost predicate StepOf(c: Receiver, e: Event, c': Receiver, sent: seq<byte>, first: int) {
    Sound(c, sent, first) ==> Step(c, e, c', sent, first)
  }

  /** A run: each state follows from the one before by its event. */
  ghost predicate Trace(states: seq<Receiver>, events: seq<Event>, sent: seq<byte>, first: int) {
    && |states| == |events| + 1
    && forall i :: 0 <= i < |events| ==> StepOf(states[i], events[i], states[i + 1], sent, first)
  }

  /** The socket before anything has arrived. */
  function Start(first: int, streamSize: nat): Receiver {
    Receiver(Rx(Wrap(first), [], 0, None), None, streamSize, [], false)
  }

  lemma StartSound(sent: seq<byte>, first: int, streamSize: nat)
    requires StreamLength(streamSize) <= TWO31
    ensures Sound(Start(first, streamSize), sent, first)
  {}

  lemma {:induction false} TraceSound(states: seq<Receiver>, events: seq<Event>, sent: seq<byte>, first: int, i: nat,
                                      j: nat)
    requires Trace(states, events, sent, first) && i <= j < |states| && Sound(states[i], sent, first)
    ensures Sound(states[j], sent, first) && Forward(states[i], states[j])
    decreases j - i
  {
    hide Sound, StepOf;
    if i < j {
      StepOfSound(states[i], events[i], states[i + 1], sent, first);
      TraceSound(states, events, sent, first, i + 1, j);
      ForwardTransitive(states[i], states[i + 1], states[j]);
    }
  }

  lemma StepOfSound(c: Receiver, e: Event, c': Receiver, sent: seq<byte>, first: int)
    requires Sound(c, sent, first) && StepOf(c, e, c', sent, first)
    ensures Sound(c', sent, first) && Forward(c, c')
  {
    hide Sound, Forward, Step;
    StepSound(c, e, c', sent, first);
  }

  /** Reassembly over every run of arrivals (in any order, with loss and duplicates) and reads:
      the bytes handed to the owner followed by the readable ones are exactly the peer's bytes up
      to the next expected sequence number, and that number never moves back. */
  lemma Reassembly(states: seq<Receiver>, events: seq<Event>, sent: seq<byte>, first: int, streamSize: nat, i: nat,
                   j: nat)
    requires Trace(states, events, sent, first) && i <= j < |states|
    requires states[0] == Start(first, streamSize) && StreamLength(streamSize) <= TWO31
    ensures states[i].delivered <= states[j].delivered <= sent
    ensures !states[j].failed ==>
      && states[j].Position() <= |sent| && states[j].Buffer().Ok()
      && states[j].delivered + states[j].Buffer().Contents() == sent[..states[j].Position()]
      && states[j].rx.current == Wrap(first + states[j].Position())
      && states[i].Position() <= states[j].Position()
  {
    StartSound(sent, first, streamSize);
    TraceSound(states, events, sent, first, 0, i);
    TraceSound(states, events, sent, first, i, j);
    var c := states[j];
    if !c.failed {
      assert c.delivered == sent[..c.Position()][..|c.delivered|];
    }
  }

  // ---- Where the code falls short -------------------------------------------------------

  /** A retransmission that spans a stored segment and goes on past it: of three bytes the second has
      arrived at a new socket, and then all three arrive. The head of the stream runs to the end of the
      buffer, beyond anything the peer has sent, while the next expected number stops at 2. */
  lemma OverlapRunsAway() returns (states: seq<Receiver>, events: seq<Event>, sent: seq<byte>)
    ensures events == [Arrive(1, [0], true, true)] && sent == [0, 0, 0]
    ensures Trace(states, events, sent, 0) && states[0] == Start(0, 4)
    ensures var c := states[1];
      && Consistent(c, sent, 0) && Honest(c, sent, 0, sent)
      && Stored(c.rx.segments, c.rx.current, 1, c.Space())
      && var c' := StoreRxData(c, 0, sent, true, true).0;
      c'.rx.current == 2 && c'.Position() == 7 > |sent|
  {
    hide StepOf, Consistent, Honest, Stored, StoreRxData, InOrderEnd, Start;
    var data: seq<byte> := [0];
    sent := [0, 0, 0];
    var c := SecondArrived(sent, data);
    events := [Arrive(1, data, true, true)];
    states := [Start(0, 4), c];
    ThirdRunsAway(c, sent);
  }

  lemma ThirdRunsAway(c: Receiver, sent: seq<byte>)
    requires Consistent(c, sent, 0) && c.rx.segments == [Piece(1, 1)] && c.rx.current == 0 && c.Position() == 0
    requires c.stream.Some? && c.Space() == 7 && |sent| == 3
    ensures Honest(c, sent, 0, sent) && Stored(c.rx.segments, c.rx.current, 1, c.Space())
    ensures var c' := StoreRxData(c, 0, sent, true, true).0; c'.rx.current == 2 && c'.Position() == 7
  {
    hide HeldInStream, Reassembled, AfterInOrder, Accepted, StoreRxData, InOrderEnd;
    SpaceFits(c);
    OneHeldEnd(c.rx.segments, 7);
    assert sent == sent[0..3];
    ExpectedIsDeposited(c, sent, true, true);
    InOrderExact(c, sent, 0, sent);
  }

  /** A new socket that has got the second of three bytes. */
  lemma SecondArrived(sent: seq<byte>, data: seq<byte>) returns (c: Receiver)
    requires |sent| == 3 && data == sent[1..2]
    ensures StepOf(Start(0, 4), Arrive(1, data, true, true), c, sent, 0)
    ensures Consistent(c, sent, 0) && c.rx.segments == [Piece(1, 1)] && c.rx.current == 0 && c.Position() == 0
    ensures c.stream.Some? && c.Space() == 7
  {
    hide Stored, HeldInStream, Reassembled, Admissible, Honest, Clear, StoreRxData, AfterOutOfOrder, Sub, Add, Find;
    var c0 := Start(0, 4);
    StartSound(sent, 0, 4);
    StoredInSpace(c0, sent, 0);
    SecondAhead(c0, sent, data);
    c := StoreRxData(c0, 1, data, true, true).0;
    OutOfOrderOutcome(c0, sent, 0, 1, data, true, true);
    OutOfOrderConsistent(c0, sent, 0, 1, data, c.rx.sack);
    SecondStored(c0, data, c.rx.sack);
  }

  lemma SecondAhead(c: Receiver, sent: seq<byte>, data: seq<byte>)
    requires c == Start(0, 4) && |sent| == 3 && data == sent[1..2]
    ensures Honest(c, sent, 1, data) && Clear(c, 1, 1) && c.Buffer().size < |c.Buffer().view|
    ensures Stored(c.rx.segments, c.rx.current, 1, c.Space()) && Admissible(c, 1, 1, true)
    ensures c.Space() == 4 && Sub(1, 0) == 1 && Add(1, 1) == 2 && Sub(2, 0) == 2 && Find(c.rx.segments, 1).None?
  {}

  lemma SecondStored(c0: Receiver, data: seq<byte>, sack: Option<Block>)
    requires c0 == Start(0, 4) && |data| == 1
    ensures var c := AfterOutOfOrder(c0, 1, data, sack);
      && c.rx.segments == [Piece(1, 1)] && c.rx.current == 0 && c.stream.Some?
      && c.stream.value.size == 0 && |c.stream.value.view| == 8 && c.Position() == 0 && c.Space() == 7
  {}

  lemma OneHeldEnd(list: seq<Piece>, limit: nat)
    requires list == [Piece(1, 1)] && 3 <= limit < TWO31
    ensures Stored(list, 0, 1, limit) && InOrderEnd(list, 0, 3, limit) == 2
  {
    LowestIsLowest(list, 0, None, 0, 3, 1, limit);
    FindOffset(list, 0, 2);
  }

  // ---- Selective acknowledgements -------------------------------------------------------

  /** The receiver has every byte of a block, given by its offsets: those below the expected number
      have been taken in, the others are held. */
  ghost predicate BlockHeld(list: seq<Piece>, base: uint32, low: int, high: int) {
    forall y :: low <= y < high ==> y < 0 || Held(list, base, y)
  }

  /** When a segment is answered with a block: it is neither the expected one nor one below (a keep-alive),
      it ends ahead of the expected number and within the space, and it is stored already or a descriptor
      is free for it. */
  lemma SackWhen(c: Receiver, seqNo: uint32, data: seq<byte>, available: bool, memory: bool)
    requires c.Buffer().size < |c.Buffer().view| && 0 < |data| < 0x1_0000
    requires Stored(c.rx.segments, c.rx.current, 1, c.Space())
    ensures StoreRxData(c, seqNo, data, available, memory).0.rx.sack.Some? <==>
      && seqNo != c.rx.current && Add(seqNo, 1) != c.rx.current
      && 0 < Int32(Sub(Add(seqNo, |data|), c.rx.current)) <= c.Space()
      && (available || exists i :: 0 <= i < |c.rx.segments| && c.rx.segments[i].seqNo == seqNo)
  {
    hide Chain, Lowest, Drain, Deposit, Stored, Find;
    var v := Check(c.rx, seqNo, |data|, c.Space(), available);
    DepositKeepsWindow(c.(rx := v.0), v.1, data, memory);
    FoundWhen(c.rx.segments, seqNo);
  }

  lemma FoundWhen(list: seq<Piece>, seqNo: uint32)
    ensures Find(list, seqNo).Some? <==> exists i :: 0 <= i < |list| && list[i].seqNo == seqNo
  {}

  /** A selective acknowledgement names the segment that arrived and what is stored behind it. The
      receiver has all of it (with Consistent, in the stream) if and only if the segment lies ahead and,
      in case it is a second copy, is no longer than the stored run at its start. */
  lemma SackExact(c: Receiver, sent: seq<byte>, first: int, seqNo: uint32, data: seq<byte>, available: bool,
                  memory: bool)
    requires Consistent(c, sent, first) && 0 < |data| < 0x1_0000 && (c.stream.Some? || memory)
    requires Stored(c.rx.segments, c.rx.current, 1, c.Space())
    requires StoreRxData(c, seqNo, data, available, memory).0.rx.sack.Some?
    ensures var c' := StoreRxData(c, seqNo, data, available, memory).0;
      var low := Int32(Sub(seqNo, c.rx.current));
      var high := Sub(c'.rx.sack.value.last, c.rx.current);
      && c'.rx.sack.value.first == seqNo && c'.rx.current == c.rx.current
      && low + |data| <= high && 0 < high <= c.Space()
      && (BlockHeld(c'.rx.segments, c.rx.current, low, high)
          <==> (low > 0 && (Find(c.rx.segments, seqNo).None?
                            || Chain(c.rx.segments, c.rx.current, low, 1, c.Space()) >= low + |data|)))
  {
    hide Stored, HeldInStream, Reassembled, Held, Chain, Find;
    ExpectedNoSack(c, data, available, memory);
    if Sub(seqNo, c.rx.current) < TWO31 {
      AheadExact(c, sent, first, seqNo, data, available, memory);
      AheadHeld(StoreRxData(c, seqNo, data, available, memory).0, c.rx.current, Sub(seqNo, c.rx.current));
    } else {
      StraddleSack(c, seqNo, data, available, memory);
    }
  }

  lemma AheadHeld(c: Receiver, base: uint32, low: nat)
    requires c.rx.sack.Some?
    ensures var high := Sub(c.rx.sack.value.last, base);
      AllHeld(c.rx.segments, base, low, high) <==> BlockHeld(c.rx.segments, base, low, high)
  {
    hide Held;
  }

  /** A segment that straddles the left edge is answered with a block that claims the expected byte. */
  lemma StraddleSack(c: Receiver, seqNo: uint32, data: seq<byte>, available: bool, memory: bool)
    requires c.Buffer().Ok() && |c.Buffer().view| <= TWO31 && 0 < |data| < 0x1_0000 && (c.stream.Some? || memory)
    requires Stored(c.rx.segments, c.rx.current, 1, c.Space())
    requires Sub(seqNo, c.rx.current) >= TWO31
    requires StoreRxData(c, seqNo, data, available, memory).0.rx.sack.Some?
    ensures var c' := StoreRxData(c, seqNo, data, available, memory).0;
      var low := Int32(Sub(seqNo, c.rx.current));
      var high := Sub(c'.rx.sack.value.last, c.rx.current);
      && c'.rx.sack.value.first == seqNo && c'.rx.current == c.rx.current
      && 0 < low + |data| <= high <= c.Space() && low < 0
      && !BlockHeld(c'.rx.segments, c.rx.current, low, high)
  {
    hide Find, Chain, Check, Deposit, Stored, BlockHeld, Held;
    SpaceFits(c);
    var v := Check(c.rx, seqNo, |data|, c.Space(), available);
    DepositKeepsWindow(c.(rx := v.0), v.1, data, memory);
    StraddleCheck(c.rx, seqNo, |data|, c.Space(), available);
    var c' := StoreRxData(c, seqNo, data, available, memory).0;
    ExpectedNotHeld(c.rx.segments, c'.rx.segments, c.rx.current, c.Space(), Piece(seqNo, |data|));
    ClaimsExpected(c'.rx.segments, c.rx.current, Int32(Sub(seqNo, c.rx.current)),
      Sub(c'.rx.sack.value.last, c.rx.current));
  }

  lemma ClaimsExpected(list: seq<Piece>, base: uint32, low: int, high: int)
    requires low < 0 < high && !Held(list, base, 0)
    ensures !BlockHeld(list, base, low, high)
  {}

  lemma ExpectedNotHeld(list: seq<Piece>, after: seq<Piece>, base: uint32, limit: nat, p: Piece)
    requires Stored(list, base, 1, limit) && (after == list || after == list + [p]) && Offset(p, base) > 0
    ensures !Held(after, base, 0)
  {
    forall i | 0 <= i < |after| ensures Offset(after[i], base) > 0 {
      if i < |list| {
        assert Within(list[i], base, 1, limit);
      }
    }
  }

  lemma StraddleCheck(rx: Rx, seqNo: uint32, length: uint32, space: nat, available: bool)
    requires Stored(rx.segments, rx.current, 1, space) && space <= TWO31 && 0 < length < 0x1_0000
    requires Sub(seqNo, rx.current) >= TWO31
    requires Check(rx, seqNo, length, space, available).0.sack.Some?
    ensures var low := Int32(Sub(seqNo, rx.current));
      var rx' := Check(rx, seqNo, length, space, available).0;
      && low < 0 < low + length <= space && rx'.current == rx.current
      && (rx'.segments == rx.segments || rx'.segments == rx.segments + [Piece(seqNo, length)])
      && rx'.sack == Some(Block(seqNo, Add(rx.current, Chain(rx.segments, rx.current, low + length, 1, space))))
  {
    hide Find, Chain, InOrder, Stored;
  }

  /** A segment that straddles the left edge: none of its bytes is stored, but a descriptor remembers
      it below the expected number, where no expected segment frees it (RxWindow.BelowStays). */
  lemma StraddleLeaks(c: Receiver, seqNo: uint32, data: seq<byte>, memory: bool)
    requires c.Buffer().Ok() && |c.Buffer().view| <= TWO31 && 0 < |data| < 0x1_0000 && (c.stream.Some? || memory)
    requires Stored(c.rx.segments, c.rx.current, 1, c.Space()) && c.rx.userDataLength == 0
    requires c.rx.current != Add(seqNo, 1) && Find(c.rx.segments, seqNo).None?
    requires Sub(seqNo, c.rx.current) >= TWO31 && 0 < Int32(Sub(Add(seqNo, |data|), c.rx.current)) <= c.Space()
    ensures var (c', result) := StoreRxData(c, seqNo, data, true, memory);
      && c'.stream == c.stream && c'.rx.current == c.rx.current && result == 0
      && c'.rx.segments == c.rx.segments + [Piece(seqNo, |data|)]
      && Sub(Piece(seqNo, |data|).seqNo, c'.rx.current) >= TWO31
  {
    hide Chain, Find, Stored, InOrder;
    SpaceFits(c);
  }

  /** Where a selective acknowledgement for a segment ahead ends, and when all of it is held. */
  lemma AheadExact(c: Receiver, sent: seq<byte>, first: int, seqNo: uint32, data: seq<byte>, available: bool,
                   memory: bool)
    requires Consistent(c, sent, first) && 0 < |data| < 0x1_0000 && (c.stream.Some? || memory)
    requires Stored(c.rx.segments, c.rx.current, 1, c.Space())
    requires StoreRxData(c, seqNo, data, available, memory).0.rx.sack.Some?
    requires seqNo != c.rx.current && Sub(seqNo, c.rx.current) < TWO31
    ensures var c' := StoreRxData(c, seqNo, data, available, memory).0;
      var k := Sub(seqNo, c.rx.current);
      var last := Sub(c'.rx.sack.value.last, c.rx.current);
      && c'.rx.sack.value.first == seqNo && c'.rx.current == c.rx.current
      && k + |data| <= last <= c.Space()
      && (AllHeld(c'.rx.segments, c.rx.current, k, last)
          <==> (Find(c.rx.segments, seqNo).None?
                || Chain(c.rx.segments, c.rx.current, k, 1, c.Space()) >= k + |data|))
  {
    SackBlock(c, seqNo, data, available, memory);
    var p := Piece(seqNo, |data|);
    var c' := StoreRxData(c, seqNo, data, available, memory).0;
    var last := Chain(c.rx.segments, c.rx.current, End(p, c.rx.current), 1, c.Space());
    assert Sub(c'.rx.sack.value.last, c.rx.current) == last;
    SackHeld(c, seqNo, data, available, memory, last);
  }

  lemma SackHeld(c: Receiver, seqNo: uint32, data: seq<byte>, available: bool, memory: bool, last: nat)
    requires c.Buffer().Ok() && |c.Buffer().view| <= TWO31 && 0 < |data| < 0x1_0000 && (c.stream.Some? || memory)
    requires Stored(c.rx.segments, c.rx.current, 1, c.Space())
    requires seqNo != c.rx.current && Sub(seqNo, c.rx.current) + |data| <= c.Space()
    requires var c' := StoreRxData(c, seqNo, data, available, memory).0;
      c'.rx.segments == if Find(c.rx.segments, seqNo).Some? then c.rx.segments
                        else c.rx.segments + [Piece(seqNo, |data|)]
    requires last == Chain(c.rx.segments, c.rx.current, Sub(seqNo, c.rx.current) + |data|, 1, c.Space())
    ensures var c' := StoreRxData(c, seqNo, data, available, memory).0;
      var k := Sub(seqNo, c.rx.current);
      AllHeld(c'.rx.segments, c.rx.current, k, last)
      <==> (Find(c.rx.segments, seqNo).None?
            || Chain(c.rx.segments, c.rx.current, k, 1, c.Space()) >= k + |data|)
  {
    hide Chain, Held, StoreRxData, AllHeld, Stored, Sub;
    var p := Piece(seqNo, |data|);
    if Find(c.rx.segments, seqNo).Some? {
      RepeatedBlock(c.rx.segments, c.rx.current, c.Space(), p, Find(c.rx.segments, seqNo).value);
    } else {
      RememberedBlock(c.rx.segments, c.rx.current, c.Space(), p);
    }
  }

  lemma SackBlock(c: Receiver, seqNo: uint32, data: seq<byte>, available: bool, memory: bool)
    requires c.Buffer().Ok() && |c.Buffer().view| <= TWO31 && 0 < |data| < 0x1_0000 && (c.stream.Some? || memory)
    requires Stored(c.rx.segments, c.rx.current, 1, c.Space())
    requires seqNo != c.rx.current && Sub(seqNo, c.rx.current) < TWO31
    requires StoreRxData(c, seqNo, data, available, memory).0.rx.sack.Some?
    ensures var k := Sub(seqNo, c.rx.current);
      var c' := StoreRxData(c, seqNo, data, available, memory).0;
      && k + |data| <= c.Space()
      && c'.rx.current == c.rx.current
      && c'.rx.segments == (if Find(c.rx.segments, seqNo).Some? then c.rx.segments
                            else c.rx.segments + [Piece(seqNo, |data|)])
      && var last := Chain(c.rx.segments, c.rx.current, k + |data|, 1, c.Space());
         c'.rx.sack == Some(Block(seqNo, Add(c.rx.current, last)))
  {
    hide Find, Chain, Check, Deposit, Stored, Sub, Add;
    SpaceFits(c);
    var v := Check(c.rx, seqNo, |data|, c.Space(), available);
    DepositKeepsWindow(c.(rx := v.0), v.1, data, memory);
    CheckSack(c.rx, seqNo, |data|, c.Space(), available);
  }

  lemma DepositKeepsWindow(c: Receiver, offset: int, data: seq<byte>, memory: bool)
    requires c.Buffer().size < |c.Buffer().view|
    ensures var rx := Deposit(c, offset, data, memory).0.rx;
      rx.sack == c.rx.sack && rx.current == c.rx.current && rx.segments == c.rx.segments
  {}

  lemma CheckSack(rx: Rx, seqNo: uint32, length: uint32, space: nat, available: bool)
    requires Stored(rx.segments, rx.current, 1, space) && space <= TWO31 && 0 < length < 0x1_0000
    requires seqNo != rx.current && Sub(seqNo, rx.current) < TWO31
    requires Check(rx, seqNo, length, space, available).0.sack.Some?
    ensures var k := Sub(seqNo, rx.current);
      var rx' := Check(rx, seqNo, length, space, available).0;
      && k + length <= space
      && rx'.current == rx.current
      && rx'.segments == (if Find(rx.segments, seqNo).Some? then rx.segments else rx.segments + [Piece(seqNo, length)])
      && rx'.sack == Some(Block(seqNo, Add(rx.current, Chain(rx.segments, rx.current, k + length, 1, space))))
  {
    hide Find, Chain, InOrder, Stored;
  }

  /** The expected segment is never answered with a selective acknowledgement. */
  lemma ExpectedNoSack(c: Receiver, data: seq<byte>, available: bool, memory: bool)
    requires c.Buffer().Ok() && |data| < 0x1_0000 && (c.stream.Some? || memory)
    requires Stored(c.rx.segments, c.rx.current, 1, c.Space())
    ensures StoreRxData(c, c.rx.current, data, available, memory).0.rx.sack == None
  {
    SpaceFits(c);
    if 0 < |data| <= c.Space() {
      ExpectedIsDeposited(c, data, available, memory);
    }
  }
}
