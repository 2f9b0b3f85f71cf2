/** A TCP socket: its window and its two streams (FreeRTOS_TCP_IP.c, FreeRTOS_Sockets.c). The
    methods do to the objects what Reception and Transmission say about values. */
module Sockets {
  import opened Common
  import opened Seq32
  import opened StreamBuffers
  import opened Segments
  import opened TcpWindows
  import RxWindow
  import TxWindow
  import Reception
  import Transmission

  /** Of the window, storing data clears ulUserDataLength only. */
  lemma DepositKeepsRx(c: Reception.Receiver, offset: int, data: seq<byte>, memory: bool)
    requires c.Buffer().size < |c.Buffer().view|
    ensures var r := Reception.Deposit(c, offset, data, memory);
      r.0.rx == if r.1 == 0 && c.rx.userDataLength > 0 then c.rx.(userDataLength := 0) else c.rx
  {}

  class Socket {
    const window: TcpWindow
    var rxStream: StreamBuffer?
    var rxStreamSize: nat
    var txStream: StreamBuffer?
    var txStreamSize: nat
    var mallocError: bool

    constructor (w: TcpWindow, rxSize: nat, txSize: nat)
      ensures window == w && rxStream == null && txStream == null && !mallocError
      ensures rxStreamSize == rxSize && txStreamSize == txSize
    {
      window, rxStream, rxStreamSize, mallocError := w, null, rxSize, false;
      txStream, txStreamSize := null, txSize;
    }

    ghost function RxObjects(): set<object>
      reads this
    {
      if rxStream == null then {} else {rxStream, rxStream.buf}
    }

    /** The receive stream is what c says, if there is one. */
    ghost predicate RxShows(c: Reception.Receiver)
      reads this, RxObjects()
    {
      && rxStreamSize == c.streamSize && mallocError == c.failed
      && (rxStream == null <==> c.stream == None)
      && (rxStream != null ==> rxStream.Valid() && rxStream.Model() == c.stream.value)
    }

    /** prvTcpCreateStream for reception; memory says whether the allocation succeeds. */
    method CreateRxStream(memory: bool) returns (ok: bool)
      requires rxStream == null
      modifies this`rxStream, this`mallocError
      ensures ok == memory && mallocError == (old(mallocError) || !memory)
      ensures ok ==> rxStream != null && fresh(rxStream) && fresh(rxStream.buf)
      ensures ok ==> rxStream.Valid() && rxStream.Model() == EmptyRing(StreamLength(rxStreamSize))
      ensures !ok ==> rxStream == null
    {
      ok := memory;
      if ok {
        rxStream := new StreamBuffer(StreamLength(rxStreamSize));
      } else {
        mallocError := true;
      }
    }

    /** lTCPAddRxdata without a receive handler. */
    method AddRxData(offset: nat, data: Option<seq<byte>>, count: nat, memory: bool, ghost c: Reception.Receiver)
      returns (stored: int)
      requires RxShows(c) && c.Buffer().size < |c.Buffer().view|
      requires data.Some? ==> count <= |data.value|
      modifies this`rxStream, this`mallocError, RxObjects()
      ensures RxShows(Reception.AddRxData(c, offset, data, count, memory).0)
      ensures stored == Reception.AddRxData(c, offset, data, count, memory).1
      ensures old(rxStream) != null ==> rxStream == old(rxStream)
      ensures old(rxStream) == null && rxStream != null ==> fresh(rxStream) && fresh(rxStream.buf)
    {
      if rxStream == null {
        var ok := CreateRxStream(memory);
        if !ok {
          return -1;
        }
      }
      stored := rxStream.Add(offset, data, count);
    }

    /** What is done with the window's verdict on an arriving segment: the data is stored, and if it
        was the missing one, `more` bytes stored ahead of the head become readable. */
    method Deposit(offset: int, data: seq<byte>, more: uint32, memory: bool, ghost c: Reception.Receiver)
      returns (result: int)
      requires RxShows(c) && c.Buffer().size < |c.Buffer().view| && more == c.rx.userDataLength
      modifies this`rxStream, this`mallocError, RxObjects()
      ensures RxShows(Reception.Deposit(c, offset, data, memory).0)
      ensures result == Reception.Deposit(c, offset, data, memory).1
    {
      hide RxShows;
      result := 0;
      ghost var d := c;
      if offset >= 0 {
        d := Reception.AddRxData(c, offset, Some(data), |data|, memory).0;
        var stored := AddRxData(offset, Some(data), |data|, memory, c);
        result := if stored != |data| then -1 else 0;
      }
      if result == 0 && more > 0 {
        ghost var e := Reception.AddRxData(d, 0, None, more, memory).0;
        var stored := AddRxData(0, None, more, memory, d);
        SameStream(e, e.(rx := e.rx.(userDataLength := 0)));
      }
    }

    lemma SameStream(c: Reception.Receiver, d: Reception.Receiver)
      requires RxShows(c) && d == c.(rx := d.rx)
      ensures RxShows(d)
    {}

    /** Both halves of the socket show the receiver c. */
    ghost predicate Shows(c: Reception.Receiver, tx: TxWindow.Tx, before: Holding)
      reads this, RxObjects()
      reads window, window.pool, window.pool.segments
    {
      true <==> RxShows(c) && window.Shows(c.rx, tx, before)
    }

    /** The window's verdict on a segment. */
    method CheckSegment(seqNo: uint32, length: uint32, ghost c: Reception.Receiver, ghost tx: TxWindow.Tx,
                        ghost before: Holding)
      returns (offset: int, more: uint32)
      requires Shows(c, tx, before)
      requires c.Buffer().size < |c.Buffer().view| && RxWindow.Stored(c.rx.segments, c.rx.current, 1, c.Space())
      modifies window, window.pool, window.pool.segments
      ensures var r := RxWindow.Check(c.rx, seqNo, length, c.Space(), old(window.pool.free) != []);
        Shows(c.(rx := r.0), tx, before) && offset == r.1 && more == r.0.userDataLength
    {
      hide StreamBuffer.Valid, StreamBuffer.Model, TcpWindow.Shows, RxWindow.Stored, RxWindow.Check;
      Parts(c, tx, before);
      StoredLimit(c.rx.segments, c.rx.current, c.Space());
      var space := RxSpace(c);
      ghost var rx := RxWindow.Check(c.rx, seqNo, length, space, window.pool.free != []).0;
      offset := window.RxCheck(seqNo, length, space, c.rx, tx, before);
      Verdict(rx, tx, before);
      more := window.userDataLength;
      SameStream(c, c.(rx := rx));
      BothShow(c.(rx := rx), tx, before);
    }

    /** Deposit, with the window unchanged. */
    method DepositData(offset: int, data: seq<byte>, more: uint32, memory: bool, ghost c: Reception.Receiver,
                       ghost tx: TxWindow.Tx, ghost before: Holding)
      returns (result: int)
      requires Shows(c, tx, before) && c.Buffer().size < |c.Buffer().view| && more == c.rx.userDataLength
      modifies this`rxStream, this`mallocError, RxObjects()
      ensures RxShows(Reception.Deposit(c, offset, data, memory).0) && window.Shows(c.rx, tx, before)
      ensures result == Reception.Deposit(c, offset, data, memory).1
    {
      hide RxShows, Shows, Reception.Deposit;
      Parts(c, tx, before);
      result := Deposit(offset, data, more, memory, c);
    }

    /** The bytes of ulUserDataLength have been dealt with. */
    method ClearMore(ghost c: Reception.Receiver, ghost rx: RxWindow.Rx, ghost tx: TxWindow.Tx, ghost before: Holding)
      requires RxShows(c) && window.Shows(rx, tx, before) && c.rx == rx.(userDataLength := 0)
      modifies window`rxCurrent, window`userDataLength
      ensures Shows(c, tx, before)
    {
      hide StreamBuffer.Valid, StreamBuffer.Model, TcpWindow.Shows;
      Verdict(rx, tx, before);
      window.RxMove(window.rxCurrent, 0, rx, tx, before);
      BothShow(c, tx, before);
    }

    method ClearSack(ghost c: Reception.Receiver, ghost tx: TxWindow.Tx, ghost before: Holding)
      requires Shows(c, tx, before)
      modifies window`sack
      ensures Shows(c.(rx := c.rx.(sack := None)), tx, before)
    {
      hide StreamBuffer.Valid, StreamBuffer.Model, TcpWindow.Shows;
      Parts(c, tx, before);
      window.SetSack(None, c.rx, tx, before);
      SameStream(c, c.(rx := c.rx.(sack := None)));
      BothShow(c.(rx := c.rx.(sack := None)), tx, before);
    }

    /** prvStoreRxData: a segment arrives on an established connection. */
    method StoreRxData(seqNo: uint32, data: seq<byte>, memory: bool, ghost c: Reception.Receiver,
                       ghost tx: TxWindow.Tx, ghost before: Holding)
      returns (result: int)
      requires Shows(c, tx, before) && |data| < 0x1_0000
      requires c.Buffer().size < |c.Buffer().view| && RxWindow.Stored(c.rx.segments, c.rx.current, 1, c.Space())
      modifies this`rxStream, this`mallocError, RxObjects()
      modifies window, window.pool, window.pool.segments
      ensures var r := Reception.StoreRxData(c, seqNo, data, old(window.pool.free) != [], memory);
        Shows(r.0, tx, before) && result == r.1
    {
      hide RxShows, Shows, RxWindow.Stored, RxWindow.Check, Reception.Deposit;
      if data == [] {
        ClearSack(c, tx, before);
        return 0;
      }
      ghost var rx := RxWindow.Check(c.rx, seqNo, |data|, c.Space(), window.pool.free != []).0;
      var offset, more := CheckSegment(seqNo, |data|, c, tx, before);
      result := DepositData(offset, data, more, memory, c.(rx := rx), tx, before);
      DepositKeepsRx(c.(rx := rx), offset, data, memory);
      ghost var d := Reception.Deposit(c.(rx := rx), offset, data, memory).0;
      if result == 0 && more > 0 {
        ClearMore(d, rx, tx, before);
      } else {
        BothShow(d, tx, before);
      }
    }

    lemma Parts(c: Reception.Receiver, tx: TxWindow.Tx, before: Holding)
      requires Shows(c, tx, before)
      ensures RxShows(c) && window.Shows(c.rx, tx, before)
    {}

    lemma BothShow(c: Reception.Receiver, tx: TxWindow.Tx, before: Holding)
      requires RxShows(c) && window.Shows(c.rx, tx, before)
      ensures Shows(c, tx, before)
    {}

    lemma Verdict(rx: RxWindow.Rx, tx: TxWindow.Tx, before: Holding)
      requires window.Shows(rx, tx, before)
      ensures window.userDataLength == rx.userDataLength && window.rxCurrent == rx.current
    {}

    /** The free space of the stream, or of the one that would be created. */
    method RxSpace(ghost c: Reception.Receiver) returns (space: uint32)
      requires RxShows(c) && c.Buffer().size < |c.Buffer().view| && c.Space() < TWO32
      ensures space == c.Space()
    {
      if rxStream != null {
        space := rxStream.GetSpace();
      } else {
        space := rxStreamSize;
      }
    }

    /** FreeRTOS_recv: up to n bytes go to the owner's buffer, oldest first; they stay in the stream if
        the owner only peeks. */
    method Recv(dest: array<byte>, n: nat, peek: bool, ghost c: Reception.Receiver) returns (count: nat)
      requires RxShows(c) && (rxStream != null ==> dest != rxStream.buf) && n <= dest.Length
      modifies rxStream, dest
      ensures RxShows(if peek then c else Reception.Receive(c, n))
      ensures count <= n && c.delivered + dest[..count] == Reception.Receive(c, n).delivered
    {
      hide StreamBuffer.Valid, StreamBuffer.Model, Ring.Drop;
      if rxStream == null {
        return 0;
      }
      count := rxStream.Get(0, dest, n, peek);
    }

    // ---- Transmission -------------------------------------------------------------------

    ghost function TxObjects(): set<object>
      reads this
    {
      if txStream == null then {} else {txStream, txStream.buf}
    }

    /** The transmit stream, or the one that would be created, is r. */
    ghost predicate TxStreamIs(r: Ring)
      reads this, TxObjects()
    {
      if txStream == null then r == EmptyRing(StreamLength(txStreamSize))
      else txStream.Valid() && txStream.Model() == r
    }

    /** Window and transmit stream show the sender s. */
    ghost predicate SenderIs(s: Transmission.Sender, rx: RxWindow.Rx, before: Holding)
      reads this, TxObjects(), window, window.pool, window.pool.segments
    {
      true <==> TxStreamIs(s.stream) && window.Shows(rx, s.tx, before)
    }

    /** FreeRTOS_send up to the point where it would block: what fits is taken. */
    method Send(data: seq<byte>, memory: bool, ghost s: Transmission.Sender) returns (count: int)
      requires TxStreamIs(s.stream) && s.stream.size < |s.stream.view|
      modifies this`txStream, this`mallocError, TxObjects()
      ensures data == [] ==> count == 0 && TxStreamIs(s.stream)
      ensures data != [] && old(txStream) == null && !memory ==> count == -1 && mallocError && TxStreamIs(s.stream)
      ensures data != [] && (old(txStream) != null || memory) ==>
        && 0 <= count <= |data|
        && TxStreamIs(Transmission.Write(s, data).stream)
        && s.written + data[..count] == Transmission.Write(s, data).written
    {
      if data == [] {
        return 0;
      }
      if txStream == null {
        if !memory {
          mallocError := true;
          return -1;
        }
        txStream := new StreamBuffer(StreamLength(txStreamSize));
      }
      var n := Min(txStream.GetSpace(), |data|);
      count := 0;
      if n > 0 {
        count := txStream.Add(0, Some(data), n);
      }
      WriteFits(s.stream, data);
    }

    /** prvTCPAddTxData: new bytes go to the window. */
    method AddTxData(ghost s: Transmission.Sender, ghost rx: RxWindow.Rx, ghost before: Holding)
      requires SenderIs(s, rx, before) && txStream != null && TxWindow.TxOk(s.tx, s.stream)
      modifies txStream`mid, window, window.pool, window.pool.segments
      ensures SenderIs(Transmission.Hand(s, old(window.pool.free)), rx, before)
      ensures Transmission.Allowed(s, Transmission.Handed(old(window.pool.free)))
    {
      hide StreamBuffer.Valid, StreamBuffer.Model, TcpWindow.Shows, TxWindow.TxAdd, TxWindow.QueuesOk, TxWindow.Tiling,
        TxWindow.Offered;
      window.PoolIsOffered(rx, s.tx, before);
      RingFacts(s);
      window.HeadIsLast(rx, s.tx, before);
      txStream.Positions();
      var length := txStream.GetMidSpace();
      if length > 0 {
        var count := window.TxAdd(length, txStream.mid, txStream.buf.Length, rx, s.tx, before);
        txStream.MoveMid(count);
      }
    }

    lemma RingFacts(s: Transmission.Sender)
      requires TxWindow.TxOk(s.tx, s.stream)
      ensures s.stream.Ok() && |s.stream.view| <= TWO31 && s.stream.mid <= s.stream.size && 0 < s.tx.mss
      ensures s.tx.head.Some? ==> s.tx.tiles != [] && s.tx.head.value == s.tx.tiles[|s.tx.tiles| - 1].id
    {}

    /** The data part of prvTCPPrepareSend: the segment the window chooses, copied from the stream
        without taking it. */
    method PrepareSend(wnd: uint32, expired: bool, out: array<byte>, ghost s: Transmission.Sender,
                       ghost rx: RxWindow.Rx, ghost before: Holding)
      returns (length: nat)
      requires SenderIs(s, rx, before) && txStream != null && TxWindow.TxOk(s.tx, s.stream)
      requires out != txStream.buf && forall i :: 0 <= i < |s.tx.tiles| ==> s.tx.tiles[i].length <= out.Length
      modifies window, window.pool.segments, txStream`tail, out
      ensures SenderIs(Transmission.Emit(s, wnd, expired), rx, before)
      ensures match Transmission.Emitted(s, wnd, expired)
        case None => length == 0
        case Some(segment) => length <= out.Length && segment == (window.ourSeq, out[..length])
    {
      hide StreamBuffer.Valid, StreamBuffer.Model, TcpWindow.Shows, TxWindow.TxGet, TxWindow.QueuesOk, TxWindow.EdgesOk;
      var position: nat;
      length, position := window.TxGet(wnd, expired, rx, s.tx, before);
      EmittedIs(s, wnd, expired);
      if length > 0 {
        Outgoing(s, rx, wnd, expired, before);
        txStream.Positions();
        var offset := StreamBuffers.Distance(txStream.buf.Length, txStream.tail, position);
        length := txStream.Get(offset, out, length, true);
      }
    }

    lemma Outgoing(s: Transmission.Sender, rx: RxWindow.Rx, wnd: uint32, expired: bool, before: Holding)
      requires TxWindow.TxOk(s.tx, s.stream) && window.Shows(rx, TxWindow.TxGet(s.tx, wnd, expired).0, before)
      ensures window.ourSeq == TxWindow.TxGet(s.tx, wnd, expired).0.ourSeq
    {}

    /** The tail of the transmit stream passes what the window has confirmed. */
    method Confirm(count: nat, ghost s: Transmission.Sender, ghost u: TxWindow.Tx, ghost rx: RxWindow.Rx,
                   ghost before: Holding, ghost report: Transmission.Report)
      requires txStream != null && TxStreamIs(s.stream) && window.Shows(rx, u, before) && s.stream.Ok()
      modifies txStream`tail
      ensures SenderIs(Transmission.Confirm(s, u, count, report), rx, before)
    {
      hide TcpWindow.Shows, StreamBuffer.Valid, StreamBuffer.Model;
      DropNone(s.stream);
      if count > 0 {
        var n := txStream.Get(0, null, count, false);
      }
    }

    /** The part of prvHandleEstablished that takes an acknowledgement. */
    method HandleAck(ack: uint32, ghost s: Transmission.Sender, ghost rx: RxWindow.Rx, ghost before: Holding)
      requires SenderIs(s, rx, before) && txStream != null && TxWindow.TxOk(s.tx, s.stream)
      modifies window, window.pool, window.pool.segments, txStream`tail
      ensures SenderIs(Transmission.Ack(s, ack), rx, before)
    {
      hide StreamBuffer.Valid, StreamBuffer.Model, TcpWindow.Shows, TxWindow.TxAck, TxWindow.QueuesOk, TxWindow.EdgesOk;
      SenderParts(s, rx, before);
      RingFacts(s);
      var count := window.TxAck(ack, rx, s.tx, before, s.stream);
      Confirm(count, s, TxWindow.TxAck(s.tx, ack).0, rx, before,
              Transmission.Report(0, s.una + Seq32.Distance(ack, s.tx.current)));
    }

    lemma SenderParts(s: Transmission.Sender, rx: RxWindow.Rx, before: Holding)
      requires SenderIs(s, rx, before)
      ensures TxStreamIs(s.stream) && window.Shows(rx, s.tx, before)
    {}

    /** The part of prvCheckOptions that takes a selective acknowledgement. */
    method HandleSack(from: uint32, last: uint32, ghost s: Transmission.Sender, ghost rx: RxWindow.Rx,
                      ghost before: Holding)
      requires SenderIs(s, rx, before) && txStream != null && TxWindow.TxOk(s.tx, s.stream)
      modifies window, window.pool, window.pool.segments, txStream`tail
      ensures SenderIs(Transmission.Sack(s, from, last), rx, before)
    {
      hide StreamBuffer.Valid, StreamBuffer.Model, TcpWindow.Shows, TxWindow.TxSack, TxWindow.QueuesOk,
        TxWindow.EdgesOk;
      SenderParts(s, rx, before);
      RingFacts(s);
      var count := window.TxSack(from, last, rx, s.tx, before, s.stream);
      Confirm(count, s, TxWindow.TxSack(s.tx, from, last).0, rx, before, Transmission.SackReport(s, from, last));
    }
  }

  /** What goes out, in terms of the chosen segment. */
  lemma EmittedIs(s: Transmission.Sender, window: uint32, expired: bool)
    requires TxWindow.TxOk(s.tx, s.stream)
    ensures s.stream.Ok()
    ensures match TxWindow.TxGet(s.tx, window, expired)
      case (_, None) => Transmission.Emitted(s, window, expired) == None
      case (u, Some(m)) =>
        && m < |s.tx.tiles| && 0 < s.tx.tiles[m].length && s.tx.tiles[m].streamPos < |s.stream.view|
        && Transmission.Emitted(s, window, expired)
           == Some((u.ourSeq, Transmission.Peek(s.stream, s.tx.tiles[m].streamPos, s.tx.tiles[m].length)))
  {
    hide TxWindow.TxGet, TxWindow.QueuesOk, TxWindow.InPlace, TxWindow.Ordered;
    if TxWindow.TxGet(s.tx, window, expired).1.Some? {
      TxWindow.TxGetSends(s.tx, s.stream, window, expired);
    }
  }

  lemma DropNone(r: Ring)
    requires r.Ok()
    ensures r.Drop(0) == r
  {}

  /** As much is written whether or not the caller cuts the data to the space first. */
  lemma WriteFits(r: Ring, data: seq<byte>)
    requires r.size < |r.view|
    ensures var n := Min(r.Space(), |data|);
      && n == r.Fits(0, |data|) == r.Fits(0, n)
      && r.Add(0, Some(data), n) == r.Add(0, Some(data), |data|)
  {}
}
