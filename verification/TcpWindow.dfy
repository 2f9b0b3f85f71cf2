/** A TCP window as an object that links descriptors of the shared pool (FreeRTOS_TCP_WIN.c). Its
    methods compute what RxWindow and TxWindow say about values, keep every descriptor in exactly
    one list, and leave the descriptors of all other windows alone. */
module TcpWindows {
  import opened Common
  import opened Seq32
  import opened StreamBuffers
  import opened Segments
  import opened RxWindow
  import opened TxWindow
  import opened TxLoops

  function PieceOf(s: Segment): Piece {
    Piece(s.seqNo, s.dataLength)
  }

  function PiecesOf(segs: seq<Segment>, list: seq<nat>): (r: seq<Piece>)
    requires Linked(segs, list)
    ensures |r| == |list| && forall i :: 0 <= i < |r| ==> r[i] == PieceOf(segs[list[i]])
  {
    seq(|list|, i requires 0 <= i < |list| => PieceOf(segs[list[i]]))
  }

  function TileOf(id: nat, s: Segment): Tile {
    Tile(id, s.seqNo, s.maxLength, s.dataLength, s.streamPos, s.transmitCount, s.dupAckCount, s.outstanding, s.acked)
  }

  function TilesOf(segs: seq<Segment>, list: seq<nat>): (r: seq<Tile>)
    requires Linked(segs, list)
    ensures |r| == |list| && forall i :: 0 <= i < |r| ==> r[i] == TileOf(list[i], segs[list[i]])
  {
    seq(|list|, i requires 0 <= i < |list| => TileOf(list[i], segs[list[i]]))
  }

  /** Remembering a segment whose selective acknowledgement is prepared. */
  function Keep(rx: Rx, seqNo: uint32, length: uint32, available: bool): (Rx, int) {
    if Find(rx.segments, seqNo).Some? then (rx, -1)
    else if !available then (rx.(sack := None), -1)
    else (rx.(segments := rx.segments + [Piece(seqNo, length)]), Int32(Sub(seqNo, rx.current)))
  }

  /** Only segments for transmission are queued, each in at most one queue. */
  ghost predicate QueuedOnce(tx: seq<nat>, priority: seq<nat>, queue: seq<nat>, waiting: seq<nat>) {
    multiset(priority) + multiset(queue) + multiset(waiting) <= multiset(tx)
  }

  /** What a holding of descriptors amounts to: the stored segments of rx and the segments of tx. */
  ghost predicate Describes(h: Holding, rx: Rx, tx: Tx) {
    true <==>
    && h.Ok() && QueuedOnce(h.tx, tx.priority, tx.queue, tx.waiting)
    && Linked(h.segs, h.rx) && PiecesOf(h.segs, h.rx) == rx.segments
    && Linked(h.segs, h.tx) && TilesOf(h.segs, h.tx) == tx.tiles
  }

  class TcpWindow {
    const pool: SegmentPool

    var rxCurrent: uint32
    var rxSegments: seq<nat>
    var userDataLength: uint32
    var sack: Option<Block>

    var txCurrent: uint32
    var txHighest: uint32
    var next: uint32
    var ourSeq: uint32
    var txWindowLength: uint32
    var mss: uint16
    var sendFullSize: bool
    var txSegments: seq<nat>
    var priority: seq<nat>
    var txQueue: seq<nat>
    var waiting: seq<nat>
    var head: Option<nat>

    ghost function Holding(): Holding
      reads this, pool, pool.segments
    {
      Segments.Holding(pool.Segs(), pool.free, rxSegments, txSegments)
    }

    /** No descriptor is linked twice, and only segments for transmission are queued. */
    ghost predicate Valid()
      reads this, pool, pool.segments
    {
      Holding().Ok() && QueuedOnce(txSegments, priority, txQueue, waiting)
    }

    ghost function RxModel(): (rx: Rx)
      requires Valid()
      reads this, pool, pool.segments
    {
      HoldingLists(Holding());
      Rx(rxCurrent, PiecesOf(pool.Segs(), rxSegments), userDataLength, sack)
    }

    ghost function TxModel(): (tx: Tx)
      requires Valid()
      reads this, pool, pool.segments
    {
      HoldingLists(Holding());
      Tx(txCurrent, txHighest, next, ourSeq, txWindowLength, mss, sendFullSize,
         TilesOf(pool.Segs(), txSegments), priority, txQueue, waiting, head)
    }

    /** The numbers and queues of the window. */
    ghost predicate Numbers(rx: Rx, tx: Tx)
      reads `rxCurrent, `userDataLength, `sack, `txCurrent, `txHighest, `next, `ourSeq, `txWindowLength, `mss
      reads `sendFullSize, `priority, `txQueue, `waiting, `head
    {
      true <==>
      && rxCurrent == rx.current && userDataLength == rx.userDataLength && sack == rx.sack
      && txCurrent == tx.current && txHighest == tx.highest && next == tx.next && ourSeq == tx.ourSeq
      && txWindowLength == tx.windowLength && mss == tx.mss && sendFullSize == tx.sendFullSize
      && priority == tx.priority && txQueue == tx.queue && waiting == tx.waiting && head == tx.head
    }

    /** The window shows these values, and since the given moment no descriptor has been lost,
        linked twice, or taken from another window. */
    ghost predicate Shows(rx: Rx, tx: Tx, before: Holding)
      reads this, pool, pool.segments
    {
      true <==> Numbers(rx, tx) && Describes(Holding(), rx, tx) && before.KeptBy(Holding())
    }

    lemma PoolIsOffered(rx: Rx, tx: Tx, before: Holding)
      requires Shows(rx, tx, before)
      ensures Offered(tx.tiles, pool.free)
    {
      hide Describes, Numbers, Offered;
      FreeIsOffered(Holding(), rx, tx);
    }

    /** vTCPWindowCreate: a window that holds no descriptor yet. */
    constructor (segments: SegmentPool, ackNumber: uint32, seqNo: uint32, maxSize: uint16, windowLength: uint32)
      requires Segments.Holding(segments.Segs(), segments.free, [], []).Ok()
      ensures pool == segments && Valid()
      ensures RxModel() == Rx(ackNumber, [], 0, None)
      ensures TxModel() == Tx(seqNo, seqNo, seqNo, seqNo, windowLength, maxSize, false, [], [], [], [], None)
    {
      pool := segments;
      rxCurrent, rxSegments, userDataLength, sack := ackNumber, [], 0, None;
      txCurrent, txHighest, next, ourSeq := seqNo, seqNo, seqNo, seqNo;
      txWindowLength, mss, sendFullSize := windowLength, maxSize, false;
      txSegments, priority, txQueue, waiting, head := [], [], [], [], None;
    }

    // ---- Descriptors --------------------------------------------------------------------

    /** The descriptor of stored segment i. */
    lemma RxDescriptor(rx: Rx, tx: Tx, i: nat)
      requires Describes(Holding(), rx, tx) && i < |rx.segments|
      ensures |rxSegments| == |rx.segments| && rxSegments[i] < pool.segments.Length
      ensures PieceOf(pool.segments[rxSegments[i]]) == rx.segments[i]
    {}

    /** The descriptor of segment i for transmission. */
    lemma TxDescriptor(rx: Rx, tx: Tx, i: nat)
      requires Describes(Holding(), rx, tx) && i < |tx.tiles|
      ensures |txSegments| == |tx.tiles| && txSegments[i] == tx.tiles[i].id < pool.segments.Length
      ensures TileOf(txSegments[i], pool.segments[txSegments[i]]) == tx.tiles[i]
    {}

    lemma FreeLinked(rx: Rx, tx: Tx)
      requires Describes(Holding(), rx, tx)
      ensures Linked(pool.Segs(), pool.free)
    {
      HoldingLists(Holding());
    }

    /** A descriptor leaves the queue it is in, if any. */
    method Dequeue(id: nat, ghost rx: Rx, ghost tx: Tx)
      requires Numbers(rx, tx)
      modifies this`priority, this`txQueue, this`waiting
      ensures Numbers(rx, tx.(priority := Without<nat>(tx.priority, id), queue := Without<nat>(tx.queue, id),
                              waiting := Without<nat>(tx.waiting, id)))
    {
      priority := Without<nat>(priority, id);
      txQueue := Without<nat>(txQueue, id);
      waiting := Without<nat>(waiting, id);
    }

    /** A descriptor leaves the window and goes back to the pool. */
    method Unlink(id: nat)
      requires id < pool.segments.Length
      modifies this`rxSegments, this`txSegments, pool, pool.segments
      ensures old(Holding()).Frees(id, Holding())
    {
      rxSegments := Without<nat>(rxSegments, id);
      txSegments := Without<nat>(txSegments, id);
      pool.Release(id);
    }

    /** vTCPWindowFree: the descriptor leaves the lists it is in and goes back to the pool. */
    method Free(id: nat, ghost rx: Rx, ghost tx: Tx)
      requires Numbers(rx, tx) && id < pool.segments.Length
      modifies this`priority, this`txQueue, this`waiting, this`rxSegments, this`txSegments, pool, pool.segments
      ensures Numbers(rx, tx.(priority := Without<nat>(tx.priority, id), queue := Without<nat>(tx.queue, id),
                              waiting := Without<nat>(tx.waiting, id)))
      ensures old(Holding()).Frees(id, Holding())
    {
      hide Numbers, Without;
      Dequeue(id, rx, tx);
      Unlink(id);
    }

    // ---- Receiving ----------------------------------------------------------------------

    /** xTCPWindowRxFind: the descriptor of the stored segment that starts at seqNo. */
    method RxFind(seqNo: uint32, ghost rx: Rx, ghost tx: Tx) returns (r: Option<nat>)
      requires Describes(Holding(), rx, tx)
      ensures match Find(rx.segments, seqNo)
        case None => r == None
        case Some(i) => i < |rxSegments| && r == Some(rxSegments[i])
    {
      var i := 0;
      while i < |rxSegments|
        invariant i <= |rxSegments| == |rx.segments|
        invariant Find(rx.segments, seqNo) == FindFrom(rx.segments, i, seqNo)
      {
        RxDescriptor(rx, tx, i);
        if pool.segments[rxSegments[i]].seqNo == seqNo {
          return Some(rxSegments[i]);
        }
        i := i + 1;
      }
      return None;
    }

    /** xTCPWindowRxConfirm: the descriptor of the lowest stored segment that starts inside. */
    method RxConfirm(seqNo: uint32, length: uint32, ghost rx: Rx, ghost tx: Tx) returns (best: Option<nat>)
      requires Describes(Holding(), rx, tx)
      ensures match Lowest(rx.segments, seqNo, Add(seqNo, length))
        case None => best == None
        case Some(i) => i < |rxSegments| && best == Some(rxSegments[i])
    {
      ghost var list, at: Option<nat> := rx.segments, None;
      var nextSeq := Add(seqNo, length);
      best := None;
      var i := 0;
      while i < |rxSegments|
        invariant i <= |rxSegments| == |list| && (at.Some? ==> at.value < |list|)
        invariant Lowest(list, seqNo, nextSeq) == LowestFrom(list, i, at, seqNo, nextSeq)
        invariant best == if at.Some? then Some(rxSegments[at.value]) else None
      {
        RxDescriptor(rx, tx, i);
        var s := pool.segments[rxSegments[i]];
        if at.Some? {
          RxDescriptor(rx, tx, at.value);
        }
        if GreaterOrEqual(s.seqNo, seqNo) && Less(s.seqNo, nextSeq) {
          if best == None || Less(s.seqNo, pool.segments[best.value].seqNo) {
            best := Some(rxSegments[i]);
            at := Some(i);
          }
        }
        i := i + 1;
      }
    }

    /** A stored segment is read and given back. */
    method FreeRx(id: nat, ghost i: nat, ghost rx: Rx, ghost tx: Tx, ghost before: Holding) returns (s: Segment)
      requires Shows(rx, tx, before) && i < |rx.segments| && i < |rxSegments| && rxSegments[i] == id
      modifies this`priority, this`txQueue, this`waiting, this`rxSegments, this`txSegments, pool, pool.segments
      ensures Shows(rx.(segments := RemoveAt(rx.segments, i)), tx, before)
      ensures PieceOf(s) == rx.segments[i]
    {
      hide Shows, Numbers, Describes, Without, RemoveAt, PieceOf;
      SeenParts(rx, tx, before);
      RxDescriptor(rx, tx, i);
      s := pool.segments[id];
      ghost var h := Holding();
      Free(id, rx, tx);
      RxFreed(h, i, Holding(), rx, tx);
      NumbersMoved(rx, tx, rx.(segments := RemoveAt(rx.segments, i)), tx);
      ShownAgain(rx.(segments := RemoveAt(rx.segments, i)), tx, before, h);
    }

    /** The lists of segments are no part of the numbers. */
    lemma NumbersMoved(rx: Rx, tx: Tx, rx': Rx, tx': Tx)
      requires Numbers(rx, tx) && rx' == rx.(segments := rx'.segments) && tx' == tx.(tiles := tx'.tiles)
      ensures Numbers(rx', tx')
    {}

    lemma SeenParts(rx: Rx, tx: Tx, before: Holding)
      requires Shows(rx, tx, before)
      ensures Numbers(rx, tx) && Describes(Holding(), rx, tx) && before.KeptBy(Holding())
      ensures rxCurrent == rx.current && |rxSegments| == |rx.segments|
    {}

    lemma ShownAgain(rx: Rx, tx: Tx, before: Holding, h: Holding)
      requires Numbers(rx, tx) && Describes(Holding(), rx, tx) && before.KeptBy(h) && h.KeptBy(Holding())
      ensures Shows(rx, tx, before)
    {}

    /** Moves the next expected number. */
    method RxMove(current: uint32, more: uint32, ghost rx: Rx, ghost tx: Tx, ghost before: Holding)
      requires Shows(rx, tx, before)
      modifies this`rxCurrent, this`userDataLength
      ensures Shows(rx.(current := current, userDataLength := more), tx, before)
    {
      rxCurrent, userDataLength := current, more;
    }

    method SetSack(block: Option<Block>, ghost rx: Rx, ghost tx: Tx, ghost before: Holding)
      requires Shows(rx, tx, before)
      modifies this`sack
      ensures Shows(rx.(sack := block), tx, before)
    {
      sack := block;
    }

    /** Gives back every stored segment that continues at start, one after the other. */
    method RxDrain(start: uint32, ghost rx: Rx, ghost tx: Tx, ghost before: Holding) returns (current: uint32)
      requires Shows(rx, tx, before)
      modifies this`priority, this`txQueue, this`waiting, this`rxSegments, this`txSegments, pool, pool.segments
      ensures Shows(rx.(segments := Drain(rx.segments, start).0), tx, before)
      ensures current == Drain(rx.segments, start).1
    {
      hide Shows, Numbers, Describes;
      current := start;
      ghost var list := rx.segments;
      SeenParts(rx, tx, before);
      var found := RxFind(current, rx, tx);
      while found.Some?
        invariant Shows(rx.(segments := list), tx, before)
        invariant Drain(list, current) == Drain(rx.segments, start)
        invariant match Find(list, current)
          case None => found == None
          case Some(i) => i < |rxSegments| && found == Some(rxSegments[i])
        decreases |list|
      {
        ghost var i := Find(list, current).value;
        var s := FreeRx(found.value, i, rx.(segments := list), tx, before);
        current := Add(current, s.dataLength);
        list := RemoveAt(list, i);
        SeenParts(rx.(segments := list), tx, before);
        found := RxFind(current, rx.(segments := list), tx);
      }
    }

    /** The expected segment has arrived and fits: it may complete stored ones. */
    method RxAccept(length: uint32, ghost rx: Rx, ghost tx: Tx, ghost before: Holding)
      requires Shows(rx, tx, before) && rx.userDataLength == 0
      modifies this, pool, pool.segments
      ensures Shows(InOrder(rx, length), tx, before)
    {
      hide Shows, Numbers, Describes;
      SeenParts(rx, tx, before);
      var next := Add(rxCurrent, length);
      if rxSegments == [] {
        RxMove(next, 0, rx, tx, before);
      } else {
        ghost var list := rx.segments;
        var current := next;
        var found := RxConfirm(rxCurrent, length, rx, tx);
        if found.Some? {
          ghost var i := Lowest(rx.segments, rx.current, next).value;
          var s := FreeRx(found.value, i, rx, tx, before);
          current := Add(s.seqNo, s.dataLength);
          list := RemoveAt(list, i);
        }
        ghost var drained := Drain(list, current);
        current := RxDrain(current, rx.(segments := list), tx, before);
        RxMove(current, if current != next then Sub(current, next) else 0, rx.(segments := drained.0), tx, before);
      }
    }

    /** xTCPWindowNew for reception: a descriptor is linked behind the stored segments. */
    method RxNew(seqNo: uint32, length: uint32, ghost rx: Rx, ghost tx: Tx, ghost before: Holding) returns (ok: bool)
      requires Shows(rx, tx, before)
      modifies this`rxSegments, pool, pool.segments
      ensures ok <==> old(pool.free) != []
      ensures Shows(if ok then rx.(segments := rx.segments + [Piece(seqNo, length)]) else rx, tx, before)
    {
      hide Shows, Numbers, Describes, Linked, Wiped;
      SeenParts(rx, tx, before);
      FreeLinked(rx, tx);
      ghost var h := Holding();
      var id := pool.New(seqNo, length, true);
      ok := id.Some?;
      if ok {
        rxSegments := rxSegments + [id.value];
        ghost var s := pool.segments[id.value];
        RxGiven(h, s, Holding(), rx, tx);
        NumbersMoved(rx, tx, rx.(segments := rx.segments + [PieceOf(s)]), tx);
        ShownAgain(rx.(segments := rx.segments + [PieceOf(s)]), tx, before, h);
      } else {
        assert Holding() == h;
        ShownAgain(rx, tx, before, h);
      }
    }

    /** Where the run of stored segments that continues at start ends. */
    method RxExtent(start: uint32, ghost rx: Rx, ghost tx: Tx, ghost limit: nat) returns (last: uint32)
      requires Describes(Holding(), rx, tx)
      requires Stored(rx.segments, rx.current, 1, limit) && Sub(start, rx.current) <= limit
      ensures last == Add(rx.current, Chain(rx.segments, rx.current, Sub(start, rx.current), 1, limit))
    {
      hide Stored, Chain, Within, Describes;
      StoredLimit(rx.segments, rx.current, limit);
      last := start;
      ghost var x := Sub(start, rx.current);
      ghost var end := Chain(rx.segments, rx.current, x, 1, limit);
      var found := RxFind(last, rx, tx);
      while found.Some?
        invariant x <= limit && last == Add(rx.current, x) && Chain(rx.segments, rx.current, x, 1, limit) == end
        invariant match Find(rx.segments, last)
          case None => found == None
          case Some(i) => i < |rxSegments| && found == Some(rxSegments[i])
        decreases limit - x
      {
        ChainOnce(rx.segments, rx.current, x, limit);
        RxDescriptor(rx, tx, Find(rx.segments, last).value);
        var length := pool.segments[found.value].dataLength;
        x := x + length;
        last := Add(last, length);
        found := RxFind(last, rx, tx);
      }
      ChainEnds(rx.segments, rx.current, x, limit);
    }

    /** Remembers a segment whose acknowledgement is prepared, unless it is there already. */
    method RxKeep(seqNo: uint32, length: uint32, ghost rx: Rx, ghost tx: Tx, ghost before: Holding)
      returns (result: int)
      requires Shows(rx, tx, before)
      modifies this`sack, this`rxSegments, pool, pool.segments
      ensures Shows(Keep(rx, seqNo, length, old(pool.free) != []).0, tx, before)
      ensures result == Keep(rx, seqNo, length, old(pool.free) != []).1
    {
      hide Shows, Numbers, Describes;
      SeenParts(rx, tx, before);
      var found := RxFind(seqNo, rx, tx);
      if found.Some? {
        return -1;
      }
      var ok := RxNew(seqNo, length, rx, tx, before);
      if !ok {
        SetSack(None, rx, tx, before);
        return -1;
      }
      result := Int32(Sub(seqNo, rxCurrent));
    }

    /** A segment ahead of the expected one has arrived and lies within the space. */
    method RxStore(seqNo: uint32, length: uint32, ghost rx: Rx, ghost tx: Tx, ghost before: Holding, ghost space: nat)
      returns (result: int)
      requires Shows(rx, tx, before) && rx.sack == None
      requires Stored(rx.segments, rx.current, 1, space) && Sub(Add(seqNo, length), rx.current) <= space
      modifies this`sack, this`rxSegments, pool, pool.segments
      ensures Shows(OutOfOrder(rx, seqNo, length, space, old(pool.free) != []).0, tx, before)
      ensures result == OutOfOrder(rx, seqNo, length, space, old(pool.free) != []).1
    {
      hide Shows, Stored, Chain, Numbers, Describes;
      SeenParts(rx, tx, before);
      var last := RxExtent(Add(seqNo, length), rx, tx, space);
      SetSack(Some(Block(seqNo, last)), rx, tx, before);
      result := RxKeep(seqNo, length, rx.(sack := Some(Block(seqNo, last))), tx, before);
    }

    /** lTCPWindowRxCheck, with the models of the window as they are on entry. */
    method RxCheck(seqNo: uint32, length: uint32, space: uint32, ghost rx: Rx, ghost tx: Tx, ghost before: Holding)
      returns (result: int)
      requires Shows(rx, tx, before) && Stored(rx.segments, rx.current, 1, space)
      modifies this, pool, pool.segments
      ensures Shows(Check(rx, seqNo, length, space, old(pool.free) != []).0, tx, before)
      ensures result == Check(rx, seqNo, length, space, old(pool.free) != []).1
    {
      hide Shows, Stored, Numbers, Describes, InOrder, OutOfOrder;
      SeenParts(rx, tx, before);
      SetSack(None, rx, tx, before);
      ghost var rx0 := rx.(sack := None);
      RxMove(rxCurrent, 0, rx0, tx, before);
      ghost var rx1 := rx0.(userDataLength := 0);
      SeenParts(rx1, tx, before);
      if rxCurrent == seqNo {
        if length > space {
          result := -1;
        } else {
          RxAccept(length, rx1, tx, before);
          result := 0;
        }
      } else if rxCurrent == Add(seqNo, 1) {
        result := -1;
      } else {
        var distance := Int32(Sub(Add(seqNo, length), rxCurrent));
        if distance <= 0 || distance > space {
          result := -1;
        } else {
          result := RxStore(seqNo, length, rx1, tx, before, space);
        }
      }
    }

    // ---- Adding data --------------------------------------------------------------------

    /** Writes the descriptor of segment i. */
    method SetTx(id: nat, s: Segment, ghost i: nat, ghost rx: Rx, ghost tx: Tx, ghost before: Holding)
      requires Shows(rx, tx, before) && i < |tx.tiles| && tx.tiles[i].id == id
      modifies pool.segments
      ensures Shows(rx, tx.(tiles := tx.tiles[i := TileOf(id, s)]), before)
    {
      hide Shows, Numbers, Describes, TileOf;
      SeenParts(rx, tx, before);
      TxDescriptor(rx, tx, i);
      ghost var h := Holding();
      pool.Set(id, s);
      TxWritten(h, i, s, Holding(), rx, tx);
      NumbersMoved(rx, tx, rx, tx.(tiles := tx.tiles[i := TileOf(id, s)]));
      ShownAgain(rx, tx.(tiles := tx.tiles[i := TileOf(id, s)]), before, h);
    }

    /** What the descriptor of segment i holds. */
    lemma TileSeen(rx: Rx, tx: Tx, before: Holding, i: nat)
      requires Shows(rx, tx, before) && i < |tx.tiles|
      ensures tx.tiles[i].id < pool.segments.Length
      ensures TileOf(tx.tiles[i].id, pool.segments[tx.tiles[i].id]) == tx.tiles[i]
    {}

    lemma NumbersSeen(rx: Rx, tx: Tx, before: Holding)
      requires Shows(rx, tx, before)
      ensures txCurrent == tx.current && txHighest == tx.highest && next == tx.next
      ensures txWindowLength == tx.windowLength && mss == tx.mss && sendFullSize == tx.sendFullSize && head == tx.head
    {}

    lemma QueuesSeen(rx: Rx, tx: Tx, before: Holding)
      requires Shows(rx, tx, before)
      ensures priority == tx.priority && txQueue == tx.queue && waiting == tx.waiting
    {}

    /** The new segment joins the transmit queue, and grows further if it is not full. */
    method LinkNew(id: nat, k: uint32, ghost rx: Rx, ghost tx: Tx)
      requires Numbers(rx, tx)
      modifies this`txSegments, this`txQueue, this`next, this`head
      ensures txSegments == old(txSegments) + [id]
      ensures Numbers(rx, tx.(queue := tx.queue + [id], head := if k < tx.mss then Some(id) else None,
                              next := Add(tx.next, k)))
    {
      txSegments, txQueue := txSegments + [id], txQueue + [id];
      next, head := Add(next, k), if k < mss then Some(id) else None;
    }

    /** xTCPWindowNew for transmission: a segment for k bytes at a stream position, if there is a free
        descriptor. */
    method TxAppend(k: uint32, position: nat, ghost rx: Rx, ghost tx: Tx, ghost before: Holding) returns (ok: bool)
      requires Shows(rx, tx, before)
      modifies this`txSegments, this`txQueue, this`next, this`head, pool, pool.segments
      ensures ok <==> old(pool.free) != []
      ensures ok ==> Shows(rx, Append(tx, old(pool.free)[0], k, position), before) && pool.free == old(pool.free)[1..]
      ensures !ok ==> Shows(rx, tx, before) && pool.free == []
    {
      hide Shows, Numbers, Describes, Linked, Wiped, Add;
      SeenParts(rx, tx, before);
      NumbersSeen(rx, tx, before);
      FreeLinked(rx, tx);
      ghost var h := Holding();
      var id := pool.New(next, mss, false);
      ok := id.Some?;
      if ok {
        var s := pool.segments[id.value].(dataLength := k, streamPos := position);
        pool.Set(id.value, s);
        LinkNew(id.value, k, rx, tx);
        TxGiven(h, s, Holding(), rx, tx);
        ghost var u := Append(tx, id.value, k, position);
        NumbersMoved(rx, u.(tiles := tx.tiles), rx, u);
        DescribesMore(Holding(), rx, u.(next := tx.next, head := tx.head), u);
        ShownAgain(rx, u, before, h);
      } else {
        assert Holding() == h;
        ShownAgain(rx, tx, before, h);
      }
    }

    /** The growing segment moves on, or stops. */
    method SetNext(number: uint32, growing: Option<nat>, ghost rx: Rx, ghost tx: Tx, ghost before: Holding)
      requires Shows(rx, tx, before)
      modifies this`next, this`head
      ensures Shows(rx, tx.(next := number, head := growing), before)
    {
      next, head := number, growing;
    }

    /** The growing segment is the last one of the window, or its descriptor is free and empty. */
    ghost predicate HeadKnown(tx: Tx)
      reads pool.segments
    {
      tx.head.Some? ==>
        && tx.head.value < pool.segments.Length
        && ((tx.tiles != [] && tx.head.value == tx.tiles[|tx.tiles| - 1].id)
            || pool.segments[tx.head.value].dataLength == 0)
    }

    lemma HeadIsLast(rx: Rx, tx: Tx, before: Holding)
      requires Shows(rx, tx, before)
      requires tx.head.Some? ==> tx.tiles != [] && tx.head.value == tx.tiles[|tx.tiles| - 1].id
      ensures HeadKnown(tx)
    {
      hide Shows;
      if tx.head.Some? {
        TileSeen(rx, tx, before, |tx.tiles| - 1);
      }
    }

    /** The growing segment takes up to n more bytes. */
    method TxFill(n: uint32, ghost rx: Rx, ghost tx: Tx, ghost before: Holding) returns (k: uint32)
      requires Shows(rx, tx, before)
      requires HeadKnown(tx)
      modifies this`next, this`head, pool.segments
      ensures Shows(rx, Fill(tx, n).0, before) && k == Fill(tx, n).1
    {
      hide Shows, Numbers, Describes, Add;
      k := 0;
      NumbersSeen(rx, tx, before);
      if head.Some? {
        var id := head.value;
        var s := pool.segments[id];
        ghost var l := |tx.tiles| - 1;
        if tx.tiles != [] {
          TileSeen(rx, tx, before, l);
        }
        if s.dataLength < s.maxLength && !s.outstanding && s.dataLength != 0 {
          k := Min(n, s.maxLength - s.dataLength);
          SetTx(id, s.(dataLength := s.dataLength + k), l, rx, tx, before);
          SetNext(Add(next, k), if s.dataLength + k >= s.maxLength then None else head,
                  rx, tx.(tiles := LongerLast(tx.tiles, k)), before);
        }
      }
    }

    /** New segments for the bytes that are left, as long as there are free descriptors. */
    method TxGrow(count: uint32, position: nat, max: nat, ghost rx: Rx, ghost tx: Tx, ghost before: Holding)
      returns (done: uint32)
      requires Shows(rx, tx, before) && 0 < tx.mss && position < max && count <= max
      modifies this`txSegments, this`txQueue, this`next, this`head, pool, pool.segments
      ensures var r := Grow(tx, count, position, max, old(pool.free));
        Shows(rx, r.0, before) && pool.free == r.1 && done == r.2
    {
      hide Shows, Append, Grow;
      ghost var goal := Grow(tx, count, position, max, pool.free);
      ghost var u := tx;
      var left: uint32, at: nat := count, position;
      done := 0;
      while left > 0
        invariant Shows(rx, u, before) && 0 < u.mss && at < max && left <= max
        invariant var g := Grow(u, left, at, max, pool.free); g.0 == goal.0 && g.1 == goal.1 && done + g.2 == goal.2
        decreases left
      {
        NumbersSeen(rx, u, before);
        var k := Min(left, mss);
        GrowOnceOrNot(u, left, at, max, pool.free);
        ghost var free := pool.free;
        var ok := TxAppend(k, at, rx, u, before);
        if !ok {
          return;
        }
        u := Append(u, free[0], k, at);
        left, at, done := left - k, Advance(at, k, max), done + k;
      }
      GrowNone(u, 0, at, max, pool.free);
    }

    /** lTCPWindowTxAdd. */
    method TxAdd(n: uint32, position: nat, max: nat, ghost rx: Rx, ghost tx: Tx, ghost before: Holding)
      returns (done: uint32)
      requires Shows(rx, tx, before) && 0 < tx.mss && position < max && n <= max
      requires HeadKnown(tx)
      modifies this, pool, pool.segments
      ensures var r := TxWindow.TxAdd(tx, n, position, max, old(pool.free));
        Shows(rx, r.0, before) && pool.free == r.1 && done == r.2
    {
      hide Shows, Fill, Grow;
      var k := TxFill(n, rx, tx, before);
      var more := TxGrow(n - k, Advance(position, k, max), max, rx, Fill(tx, n).0, before);
      done := k + more;
    }

    // ---- Sending ------------------------------------------------------------------------

    /** prvTCPWindowTxHasSpace: is there space for the segment at the head of the transmit queue? */
    method TxHasSpace(window: uint32, ghost rx: Rx, ghost tx: Tx, ghost before: Holding) returns (ok: bool)
      requires Shows(rx, tx, before) && |tx.queue| <= |tx.tiles|
      requires tx.queue != [] ==> tx.queue[0] == tx.tiles[tx.Sent()].id
      ensures ok <==> tx.queue != [] && HasSpace(tx, tx.tiles[tx.Sent()], window)
    {
      hide Shows;
      NumbersSeen(rx, tx, before);
      QueuesSeen(rx, tx, before);
      if txQueue == [] {
        return false;
      }
      TileSeen(rx, tx, before, tx.Sent());
      var length := pool.segments[txQueue[0]].dataLength;
      var outstanding := if txHighest >= txCurrent then txHighest - txCurrent else 0;
      var left := window - Min(window, outstanding);
      ok := left >= length;
      if outstanding != 0 && txWindowLength < outstanding + length {
        ok := false;
      }
    }

    method SetOurSeq(number: uint32, ghost rx: Rx, ghost tx: Tx, ghost before: Holding)
      requires Shows(rx, tx, before)
      modifies this`ourSeq
      ensures Shows(rx, tx.(ourSeq := number), before)
    {
      ourSeq := number;
    }

    /** xTCPWindowGetHead for the three queues: the first segment leaves its queue. */
    method GetPriority(ghost rx: Rx, ghost tx: Tx, ghost before: Holding) returns (id: nat)
      requires Shows(rx, tx, before) && tx.priority != []
      modifies this`priority
      ensures Shows(rx, TakePriority(tx), before) && id == tx.priority[0] && Unqueued(TakePriority(tx), id)
    {
      hide Shows, Describes, Unqueued;
      SeenParts(rx, tx, before);
      QueuesSeen(rx, tx, before);
      id := priority[0];
      PriorityTaken(Holding(), rx, tx);
      SetPriority(rx, tx);
      ShownAgain(rx, TakePriority(tx), before, Holding());
    }

    method SetPriority(ghost rx: Rx, ghost tx: Tx)
      requires Numbers(rx, tx) && tx.priority != []
      modifies this`priority
      ensures Numbers(rx, TakePriority(tx))
    {
      priority := priority[1..];
    }

    method GetWaiting(ghost i: nat, ghost rx: Rx, ghost tx: Tx, ghost before: Holding) returns (id: nat)
      requires Shows(rx, tx, before) && tx.waiting != [] && i < |tx.tiles| && tx.tiles[i].id == tx.waiting[0]
      modifies this`waiting, pool.segments
      ensures Shows(rx, TakeWaiting(tx, i), before) && id == tx.waiting[0] && Unqueued(TakeWaiting(tx, i), id)
    {
      hide Shows, Describes, Unqueued;
      SeenParts(rx, tx, before);
      QueuesSeen(rx, tx, before);
      id := waiting[0];
      ghost var u := tx.(waiting := tx.waiting[1..]);
      WaitingTaken(Holding(), rx, tx);
      SetWaiting(rx, tx);
      ShownAgain(rx, u, before, Holding());
      TileSeen(rx, u, before, i);
      SetTx(id, pool.segments[id].(dupAckCount := 0), i, rx, u, before);
      UnqueuedSame(u, TakeWaiting(tx, i), id);
    }

    method SetWaiting(ghost rx: Rx, ghost tx: Tx)
      requires Numbers(rx, tx) && tx.waiting != []
      modifies this`waiting
      ensures Numbers(rx, tx.(waiting := tx.waiting[1..]))
    {
      waiting := waiting[1..];
    }

    /** The first new segment leaves the transmit queue and grows no more. */
    method GetNew(ghost rx: Rx, ghost tx: Tx, ghost before: Holding) returns (id: nat)
      requires Shows(rx, tx, before) && 0 < |tx.queue| <= |tx.tiles| && tx.queue[0] == tx.tiles[tx.Sent()].id
      modifies this`txQueue, this`head, this`txHighest
      ensures Shows(rx, TakeNew(tx), before) && id == tx.queue[0] && Unqueued(TakeNew(tx), id)
    {
      hide Shows, Describes, Unqueued, Add;
      SeenParts(rx, tx, before);
      QueuesSeen(rx, tx, before);
      TileSeen(rx, tx, before, tx.Sent());
      id := txQueue[0];
      NewTaken(Holding(), rx, tx);
      SetNew(id, pool.segments[id].seqNo, pool.segments[id].dataLength, rx, tx);
      ShownAgain(rx, TakeNew(tx), before, Holding());
    }

    method SetNew(id: nat, seqNo: uint32, length: uint32, ghost rx: Rx, ghost tx: Tx)
      requires Numbers(rx, tx) && tx.queue != []
      modifies this`txQueue, this`head, this`txHighest
      ensures Numbers(rx, tx.(queue := tx.queue[1..], head := if tx.head == Some(id) then None else tx.head,
                              highest := Add(seqNo, length)))
    {
      txQueue := txQueue[1..];
      if head == Some(id) {
        head := None;
      }
      txHighest := Add(seqNo, length);
    }

    /** A segment that is in no queue goes out and waits for its acknowledgement. */
    method Send(id: nat, ghost i: nat, ghost rx: Rx, ghost tx: Tx, ghost before: Holding)
      returns (length: uint32, position: nat)
      requires Shows(rx, tx, before) && i < |tx.tiles| && tx.tiles[i].id == id && Unqueued(tx, id)
      modifies this`waiting, this`txWindowLength, this`ourSeq, pool.segments
      ensures Shows(rx, Transmit(tx, i), before)
      ensures length == tx.tiles[i].length && position == tx.tiles[i].streamPos
    {
      hide Shows, Describes, Unqueued, Numbers;
      SeenParts(rx, tx, before);
      TileSeen(rx, tx, before, i);
      var s := pool.segments[id];
      var count := (s.transmitCount + 1) % 256;
      ghost var u := tx.(waiting := tx.waiting + [id], windowLength := SentWindow(tx, count), ourSeq := s.seqNo);
      SentDescribed(Holding(), rx, tx, i, u);
      SetSent(id, count, s.seqNo, rx, tx);
      ShownAgain(rx, u, before, Holding());
      SetTx(id, s.(outstanding := true, transmitCount := count), i, rx, u, before);
      length, position := s.dataLength, s.streamPos;
    }

    method SetSent(id: nat, count: byte, seqNo: uint32, ghost rx: Rx, ghost tx: Tx)
      requires Numbers(rx, tx)
      modifies this`waiting, this`txWindowLength, this`ourSeq
      ensures Numbers(rx, tx.(waiting := tx.waiting + [id], windowLength := SentWindow(tx, count), ourSeq := seqNo))
    {
      waiting := waiting + [id];
      if count == 4 && txWindowLength > 2 * mss {
        txWindowLength := 2 * mss;
      }
      ourSeq := seqNo;
    }

    /** ulTCPWindowTxGet: the length of the segment that goes out, 0 if there is none, and where its
        bytes are in the stream. */
    method TxGet(window: uint32, expired: bool, ghost rx: Rx, ghost tx: Tx, ghost before: Holding)
      returns (length: uint32, position: nat)
      requires Shows(rx, tx, before) && QueuesOk(tx.tiles, tx.queue, tx.priority, tx.waiting, tx.head)
      modifies this, pool.segments
      ensures Shows(rx, TxWindow.TxGet(tx, window, expired).0, before)
      ensures match TxWindow.TxGet(tx, window, expired).1
        case None => length == 0
        case Some(m) => m < |tx.tiles| && length == tx.tiles[m].length && position == tx.tiles[m].streamPos
    {
      hide Shows, QueuesOk, Transmit, HasSpace, Unqueued, TxWindow.TxGet;
      GetCases(tx, window, expired);
      QueuesSeen(rx, tx, before);
      NumbersSeen(rx, tx, before);
      SetOurSeq(txHighest, rx, tx, before);
      ghost var v := tx.(ourSeq := tx.highest);
      if priority != [] {
        var id := GetPriority(rx, v, before);
        length, position := Send(id, Named(tx.tiles, id), rx, TakePriority(v), before);
      } else if waiting != [] && expired {
        ghost var i := Named(tx.tiles, tx.waiting[0]);
        var id := GetWaiting(i, rx, v, before);
        length, position := Send(id, i, rx, TakeWaiting(v, i), before);
      } else if txQueue == [] {
        length, position := 0, 0;
      } else {
        TileSeen(rx, v, before, tx.Sent());
        var s := pool.segments[txQueue[0]];
        var space := TxHasSpace(window, rx, v, before);
        if (sendFullSize && s.dataLength < s.maxLength) || !space {
          length, position := 0, 0;
        } else {
          var id := GetNew(rx, v, before);
          length, position := Send(id, tx.Sent(), rx, TakeNew(v), before);
        }
      }
    }

    // ---- Acknowledgements ---------------------------------------------------------------

    lemma TxCount(rx: Rx, tx: Tx, before: Holding)
      requires Shows(rx, tx, before)
      ensures |txSegments| == |tx.tiles|
      ensures forall i :: 0 <= i < |txSegments| ==> txSegments[i] == tx.tiles[i].id
    {}

    /** An acknowledged segment at the left edge is given back, and the edge moves past it. */
    method FreeTx(id: nat, length: uint32, ghost i: nat, ghost rx: Rx, ghost tx: Tx, ghost before: Holding)
      requires Shows(rx, tx, before) && i < |tx.tiles| && tx.tiles[i].id == id && tx.tiles[i].length == length
      modifies this`priority, this`txQueue, this`waiting, this`rxSegments, this`txSegments, this`txCurrent, pool,
        pool.segments
      ensures Shows(rx, FreeAt(tx, i), before)
    {
      hide Shows, Numbers, Describes, Without;
      SeenParts(rx, tx, before);
      TileSeen(rx, tx, before, i);
      TxCount(rx, tx, before);
      ghost var h := Holding();
      Free(id, rx, tx);
      TxFreed(h, i, Holding(), rx, tx);
      ghost var u := FreeAt(tx, i).(current := tx.current);
      DescribesMore(Holding(), rx, FreeAt(tx, i), u);
      NumbersMoved(rx, u.(tiles := tx.tiles), rx, u);
      ShownAgain(rx, u, before, h);
      MoveLeft(length, rx, u, before);
    }

    method MoveLeft(length: uint32, ghost rx: Rx, ghost tx: Tx, ghost before: Holding)
      requires Shows(rx, tx, before)
      modifies this`txCurrent
      ensures Shows(rx, tx.(current := Add(tx.current, length)), before)
    {
      txCurrent := Add(txCurrent, length);
    }

    /** A segment further on is marked and leaves its queue. */
    method MarkTx(id: nat, ghost i: nat, ghost rx: Rx, ghost tx: Tx, ghost before: Holding)
      requires Shows(rx, tx, before) && i < |tx.tiles| && tx.tiles[i].id == id && !tx.tiles[i].acked
      modifies this`priority, this`txQueue, this`waiting, pool.segments
      ensures Shows(rx, MarkAt(tx, i), before)
    {
      hide Shows, Numbers, Describes, Without;
      TileSeen(rx, tx, before, i);
      var s := pool.segments[id].(acked := true);
      ghost var t := tx.tiles[i].(acked := true);
      SetTx(id, s, i, rx, tx, before);
      ghost var u := tx.(tiles := tx.tiles[i := t]);
      SeenParts(rx, u, before);
      Dequeue(id, rx, u);
      DequeuedDescribed(Holding(), rx, u, id);
      ShownAgain(rx, MarkAt(tx, i), before, Holding());
    }

    /** prvTCPWindowTxCheckAck: the walk over the segments, which moves on before the current one may
        be unlinked. */
    method TxCheckAck(first: uint32, last: uint32, ghost rx: Rx, ghost tx: Tx, ghost before: Holding)
      returns (confirmed: nat)
      requires Shows(rx, tx, before)
      modifies this, pool, pool.segments
      ensures Shows(rx, AckLoop(tx, 0, first, 0, last).0, before) && confirmed == AckLoop(tx, 0, first, 0, last).1
    {
      hide Shows, FreeAt, MarkAt, Less, Greater, Add;
      ghost var goal, u := AckLoop(tx, 0, first, 0, last), tx;
      var i: nat, seqNo: uint32 := 0, first;
      confirmed := 0;
      TxCount(rx, u, before);
      while i < |txSegments| && Less(seqNo, last)
        invariant Shows(rx, u, before) && i <= |u.tiles| == |txSegments|
        invariant AckLoop(u, i, seqNo, confirmed, last) == goal
        decreases |u.tiles| - i
      {
        TxCount(rx, u, before);
        TileSeen(rx, u, before, i);
        NumbersSeen(rx, u, before);
        var id := txSegments[i];
        var s := pool.segments[id];
        AckRound(u, i, seqNo, confirmed, last);
        if Greater(seqNo, s.seqNo) {
          i := i + 1;
        } else if Stops(TileOf(id, s), seqNo, last) {
          return;
        } else {
          if seqNo == txCurrent {
            FreeTx(id, s.dataLength, i, rx, u, before);
            confirmed := confirmed + s.dataLength;
            u := FreeAt(u, i);
          } else {
            if !s.acked {
              MarkTx(id, i, rx, u, before);
            }
            u := MarkAt(u, i);
            i := i + 1;
          }
          seqNo := Add(seqNo, s.dataLength);
          TxCount(rx, u, before);
        }
      }
    }

    /** A waiting segment becomes a priority one. */
    method Promote(i: nat, ghost rx: Rx, ghost tx: Tx, ghost before: Holding)
      requires Shows(rx, tx, before) && i < |tx.waiting|
      modifies this`priority, this`waiting
      ensures Shows(rx, tx.(waiting := tx.waiting[..i] + tx.waiting[i + 1..],
        priority := tx.priority + [tx.waiting[i]]), before)
    {
      hide Shows, Describes;
      SeenParts(rx, tx, before);
      PromotedDescribed(Holding(), rx, tx, i);
      SetPromoted(i, rx, tx);
      ShownAgain(rx, tx.(waiting := tx.waiting[..i] + tx.waiting[i + 1..], priority := tx.priority + [tx.waiting[i]]),
                 before, Holding());
    }

    method SetPromoted(i: nat, ghost rx: Rx, ghost tx: Tx)
      requires Numbers(rx, tx) && i < |tx.waiting|
      modifies this`priority, this`waiting
      ensures Numbers(rx, tx.(waiting := tx.waiting[..i] + tx.waiting[i + 1..],
        priority := tx.priority + [tx.waiting[i]]))
    {
      priority, waiting := priority + [waiting[i]], waiting[..i] + waiting[i + 1..];
    }

    /** One segment of the waiting queue, seen from a block further on. */
    method PassOver(i: nat, first: uint32, ghost k: nat, ghost rx: Rx, ghost tx: Tx, ghost before: Holding)
      requires Shows(rx, tx, before) && i < |tx.waiting| && k < |tx.tiles| && tx.tiles[k].id == tx.waiting[i]
      modifies this`priority, this`waiting, pool.segments
      ensures Shows(rx, FastAt(tx, i, k, first), before)
    {
      hide Shows, Less;
      QueuesSeen(rx, tx, before);
      TileSeen(rx, tx, before, k);
      var id := waiting[i];
      var s := pool.segments[id];
      if !s.acked && Less(s.seqNo, first) {
        var count := (s.dupAckCount + 1) % 256;
        if count != 3 {
          SetTx(id, s.(dupAckCount := count), k, rx, tx, before);
        } else {
          SetTx(id, s.(dupAckCount := count, transmitCount := 0), k, rx, tx, before);
          ghost var t := tx.tiles[k].(dupAckCount := count, transmitCount := 0);
          Promote(i, rx, tx.(tiles := tx.tiles[k := t]), before);
        }
      }
    }

    /** prvTCPWindowFastRetransmit: the walk over the waiting queue. */
    method TxFastRetransmit(first: uint32, ghost rx: Rx, ghost tx: Tx, ghost before: Holding)
      requires Shows(rx, tx, before) && AllNamed(tx.tiles, tx.waiting)
      modifies this`priority, this`waiting, pool.segments
      ensures Shows(rx, FastLoop(tx, 0, first), before)
    {
      hide Shows, AllNamed, FastAt;
      ghost var goal, u := FastLoop(tx, 0, first), tx;
      var i: nat := 0;
      QueuesSeen(rx, u, before);
      while i < |waiting|
        invariant Shows(rx, u, before) && AllNamed(u.tiles, u.waiting) && waiting == u.waiting
        invariant i <= |u.waiting| && FastLoop(u, i, first) == goal
        decreases |u.waiting| - i
      {
        ghost var k := FastRound(u, i, first);
        var length := |waiting|;
        PassOver(i, first, k, rx, u, before);
        u := FastAt(u, i, k, first);
        QueuesSeen(rx, u, before);
        if |waiting| == length {
          i := i + 1;
        }
      }
    }

    /** ulTCPWindowTxAck, for a window in order. */
    method TxAck(ack: uint32, ghost rx: Rx, ghost tx: Tx, ghost before: Holding, ghost r: Ring) returns (confirmed: nat)
      requires Shows(rx, tx, before) && TxOk(tx, r)
      modifies this, pool, pool.segments
      ensures Shows(rx, TxWindow.TxAck(tx, ack).0, before) && confirmed == TxWindow.TxAck(tx, ack).1
    {
      hide Shows, TxOk, AckLoop, CheckAck, LessOrEqual;
      NumbersSeen(rx, tx, before);
      if LessOrEqual(ack, txCurrent) {
        confirmed := 0;
      } else {
        AckLoopIsCheckAck(tx, r, tx.current, ack);
        confirmed := TxCheckAck(txCurrent, ack, rx, tx, before);
      }
    }

    /** ulTCPWindowTxSack, for a window in order and a block within what has been sent. */
    method TxSack(first: uint32, last: uint32, ghost rx: Rx, ghost tx: Tx, ghost before: Holding, ghost r: Ring)
      returns (confirmed: nat)
      requires Shows(rx, tx, before) && TxOk(tx, r)
      modifies this, pool, pool.segments
      ensures Shows(rx, TxWindow.TxSack(tx, first, last).0, before) && confirmed == TxWindow.TxSack(tx, first, last).1
    {
      hide Shows, TxOk, AckLoop, CheckAck, FastLoop, Walkable, FastRetransmit;
      AckLoopIsCheckAck(tx, r, first, last);
      confirmed := TxCheckAck(first, last, rx, tx, before);
      ghost var u := CheckAck(tx, first, last).0;
      AcknowledgedWalkable(tx, r, first, last);
      FastLoopIsFastRetransmit(u, first);
      TxFastRetransmit(first, rx, u, before);
    }

    // ---- The end ------------------------------------------------------------------------

    /** vTCPWindowDestroy: every descriptor of the window goes back to the pool, those for
        transmission first. */
    method Destroy()
      requires Valid()
      modifies this`priority, this`txQueue, this`waiting, this`rxSegments, this`txSegments, pool, pool.segments
      ensures Valid() && old(Holding()).KeptBy(Holding())
      ensures rxSegments == [] && txSegments == []
      ensures multiset(pool.free) == old(Holding().Owned())
    {
      ghost var before := Holding();
      while |txSegments| > 0
        invariant Valid() && before.KeptBy(Holding())
        decreases |txSegments|
      {
        FreeFirst(txSegments[0], before);
      }
      while |rxSegments| > 0
        invariant Valid() && before.KeptBy(Holding()) && txSegments == []
        decreases |rxSegments|
      {
        FreeFirst(rxSegments[0], before);
      }
    }

    method FreeFirst(id: nat, ghost before: Holding)
      requires Valid() && before.KeptBy(Holding()) && (id in rxSegments || id in txSegments)
      modifies this`priority, this`txQueue, this`waiting, this`rxSegments, this`txSegments, pool, pool.segments
      ensures Valid() && before.KeptBy(Holding())
      ensures rxSegments == Without<nat>(old(rxSegments), id) && txSegments == Without<nat>(old(txSegments), id)
    {
      hide Without;
      ghost var rx, tx, h := RxModel(), TxModel(), Holding();
      HoldingLists(h);
      FreedKept(h, id);
      StillQueuedOnce(txSegments, priority, txQueue, waiting, id);
      Free(id, rx, tx);
      KeptOk(h, Holding());
      KeptTransitive(before, h, Holding());
    }
  }

  /** One more stored segment of a run. */
  lemma ChainOnce(list: seq<Piece>, base: uint32, x: nat, limit: nat)
    requires Stored(list, base, 1, limit) && x <= limit && Find(list, Add(base, x)).Some?
    ensures var length := list[Find(list, Add(base, x)).value].length;
      && 0 < length && x + length <= limit && Add(Add(base, x), length) == Add(base, x + length)
      && Chain(list, base, x + length, 1, limit) == Chain(list, base, x, 1, limit)
  {}

  lemma StoredLimit(list: seq<Piece>, base: uint32, limit: nat)
    requires Stored(list, base, 1, limit)
    ensures limit < TWO31
  {}

  lemma ChainEnds(list: seq<Piece>, base: uint32, x: nat, limit: nat)
    requires Stored(list, base, 1, limit) && x <= limit && Find(list, Add(base, x)).None?
    ensures Chain(list, base, x, 1, limit) == x
  {}

  // ---- Lists with an item less ----------------------------------------------------------

  lemma LessOne(p: multiset<nat>, q: multiset<nat>, w: multiset<nat>, t: multiset<nat>, id: nat)
    requires p + q + w <= t && t[id] <= 1
    ensures (p - multiset{id}) + (q - multiset{id}) + (w - multiset{id}) <= t - multiset{id}
  {}

  lemma StillQueuedOnce(tx: seq<nat>, priority: seq<nat>, queue: seq<nat>, waiting: seq<nat>, id: nat)
    requires QueuedOnce(tx, priority, queue, waiting) && NoDup(tx)
    ensures QueuedOnce(Without<nat>(tx, id), Without<nat>(priority, id), Without<nat>(queue, id),
      Without<nat>(waiting, id))
  {
    NoDupCounts(tx);
    WithoutCounts<nat>(tx, id);
    WithoutCounts<nat>(priority, id);
    WithoutCounts<nat>(queue, id);
    WithoutCounts<nat>(waiting, id);
    hide Without;
    LessOne(multiset(priority), multiset(queue), multiset(waiting), multiset(tx), id);
  }

  lemma NotQueued(tx: seq<nat>, priority: seq<nat>, queue: seq<nat>, waiting: seq<nat>, id: nat)
    requires QueuedOnce(tx, priority, queue, waiting) && id !in tx
    ensures Without<nat>(priority, id) == priority && Without<nat>(queue, id) == queue
    ensures Without<nat>(waiting, id) == waiting
  {
    assert multiset(tx)[id] == 0;
    assert id !in multiset(priority) && id !in multiset(queue) && id !in multiset(waiting);
    WithoutForeign(priority, id);
    WithoutForeign(queue, id);
    WithoutForeign(waiting, id);
  }

  lemma RemovedPieces(segs: seq<Segment>, t: seq<Segment>, list: seq<nat>, i: nat)
    requires Linked(segs, list) && |t| == |segs| && i < |list|
    requires forall k :: 0 <= k < |list| && k != i ==> t[list[k]] == segs[list[k]]
    ensures Linked(t, RemoveAt(list, i))
    ensures PiecesOf(t, RemoveAt(list, i)) == RemoveAt(PiecesOf(segs, list), i)
  {}

  lemma SameTiles(segs: seq<Segment>, t: seq<Segment>, list: seq<nat>)
    requires Linked(segs, list) && |t| == |segs|
    requires forall k :: 0 <= k < |list| ==> t[list[k]] == segs[list[k]]
    ensures Linked(t, list) && TilesOf(t, list) == TilesOf(segs, list)
  {}

  lemma SamePieces(segs: seq<Segment>, t: seq<Segment>, list: seq<nat>)
    requires Linked(segs, list) && |t| == |segs|
    requires forall k :: 0 <= k < |list| ==> t[list[k]] == segs[list[k]]
    ensures Linked(t, list) && PiecesOf(t, list) == PiecesOf(segs, list)
  {}

  /** The free descriptors of the pool are none of the window's: it may be offered all of them. */
  lemma FreeIsOffered(h: Holding, rx: Rx, tx: Tx)
    requires Describes(h, rx, tx)
    ensures Offered(tx.tiles, h.free)
  {
    hide QueuedOnce, PiecesOf;
    HoldingLists(h);
    forall i | 0 <= i < |tx.tiles| ensures tx.tiles[i].id !in h.free {
      assert tx.tiles[i].id == h.tx[i] && h.tx[i] in h.tx;
    }
  }

  /** The descriptor that is given away was in no list of the window. */
  lemma GivenParts(h: Holding, s: Segment, forRx: bool, k: Holding)
    requires h.Ok() && h.Gives(s, forRx, k)
    ensures h.free != [] && h.free[0] < |h.segs| && k.segs == h.segs[h.free[0] := s]
    ensures h.free[0] !in h.rx && h.free[0] !in h.tx && Linked(h.segs, h.rx) && Linked(h.segs, h.tx)
    ensures k.rx == (if forRx then h.rx + [h.free[0]] else h.rx) && k.tx == (if forRx then h.tx else h.tx + [h.free[0]])
    ensures h.KeptBy(k) && k.Ok()
  {
    hide Holding.KeptBy, Holding.Ok;
    HoldingLists(h);
    assert h.free[0] in h.free;
    GivenKept(h, s, forRx, k);
    KeptOk(h, k);
  }

  lemma MoreTiles(segs: seq<Segment>, list: seq<nat>, id: nat, s: Segment)
    requires Linked(segs, list) && id < |segs| && id !in list
    ensures Linked(segs[id := s], list) && Linked(segs[id := s], list + [id])
    ensures TilesOf(segs[id := s], list) == TilesOf(segs, list)
    ensures TilesOf(segs[id := s], list + [id]) == TilesOf(segs, list) + [TileOf(id, s)]
  {}

  lemma MorePieces(segs: seq<Segment>, list: seq<nat>, id: nat, s: Segment)
    requires Linked(segs, list) && id < |segs| && id !in list
    ensures Linked(segs[id := s], list) && Linked(segs[id := s], list + [id])
    ensures PiecesOf(segs[id := s], list) == PiecesOf(segs, list)
    ensures PiecesOf(segs[id := s], list + [id]) == PiecesOf(segs, list) + [PieceOf(s)]
  {}

  lemma TxGiven(h: Holding, s: Segment, k: Holding, rx: Rx, tx: Tx)
    requires Describes(h, rx, tx) && h.Gives(s, false, k)
    ensures h.KeptBy(k) && h.free != []
    ensures Describes(k, rx, tx.(tiles := tx.tiles + [TileOf(h.free[0], s)], queue := tx.queue + [h.free[0]]))
  {
    hide Holding.Ok, Holding.KeptBy, Holding.Gives, QueuedOnce, Linked, TilesOf, PiecesOf;
    GivenParts(h, s, false, k);
    MoreQueuedOnce(h.tx, tx.priority, tx.queue, tx.waiting, h.free[0]);
    MoreTiles(h.segs, h.tx, h.free[0], s);
    MorePieces(h.segs, h.rx, h.free[0], s);
  }

  lemma TxWritten(h: Holding, i: nat, s: Segment, k: Holding, rx: Rx, tx: Tx)
    requires Describes(h, rx, tx) && i < |h.tx| && h.tx[i] < |h.segs| && k == h.(segs := h.segs[h.tx[i] := s])
    ensures |h.tx| == |tx.tiles|
    ensures h.KeptBy(k) && Describes(k, rx, tx.(tiles := tx.tiles[i := TileOf(h.tx[i], s)]))
  {
    HoldingLists(h);
    assert h.tx[i] in h.tx;
    WrittenKept(h, h.tx[i], s);
    KeptOk(h, k);
    SamePieces(h.segs, k.segs, h.rx);
  }

  /** One round of the walk over the segments. */
  lemma AckRound(tx: Tx, i: nat, seqNo: uint32, count: nat, last: uint32)
    requires i < |tx.tiles| && Less(seqNo, last)
    ensures var t := tx.tiles[i];
      AckLoop(tx, i, seqNo, count, last)
      == if Greater(seqNo, t.seqNo) then AckLoop(tx, i + 1, seqNo, count, last)
         else if Stops(t, seqNo, last) then (tx, count)
         else if seqNo == tx.current then AckLoop(FreeAt(tx, i), i, Add(seqNo, t.length), count + t.length, last)
         else AckLoop(MarkAt(tx, i), i + 1, Add(seqNo, t.length), count, last)
    ensures |FreeAt(tx, i).tiles| == |tx.tiles| - 1 && |MarkAt(tx, i).tiles| == |tx.tiles|
    ensures tx.tiles[i].acked ==> MarkAt(tx, i) == tx
  {}

  /** One round of the walk over the waiting queue. */
  lemma FastRound(tx: Tx, i: nat, first: uint32) returns (k: nat)
    requires i < |tx.waiting| && AllNamed(tx.tiles, tx.waiting)
    ensures k < |tx.tiles| && tx.tiles[k].id == tx.waiting[i]
    ensures var u := FastAt(tx, i, k, first);
      && AllNamed(u.tiles, u.waiting) && |tx.waiting| - 1 <= |u.waiting| <= |tx.waiting|
      && FastLoop(tx, i, first) == FastLoop(u, if |u.waiting| < |tx.waiting| then i else i + 1, first)
  {
    assert tx.waiting[i] in tx.waiting;
    k := Named(tx.tiles, tx.waiting[i]);
    FastAtNamed(tx, i, k, first);
  }

  lemma TxAlone(h: Holding, i: nat, rx: Rx, tx: Tx)
    requires Describes(h, rx, tx) && i < |h.tx|
    ensures h.tx[i] in h.tx && Without<nat>(h.tx, h.tx[i]) == h.tx[..i] + h.tx[i + 1..]
    ensures Without<nat>(h.rx, h.tx[i]) == h.rx && forall l :: 0 <= l < |h.rx| ==> h.rx[l] != h.tx[i]
    ensures forall l :: 0 <= l < |h.tx| && l != i ==> h.tx[l] != h.tx[i]
    ensures NoDup(h.tx)
  {
    hide Without;
    HoldingLists(h);
    assert h.tx[i] in h.tx;
    WithoutAt(h.tx, i);
    WithoutForeign(h.rx, h.tx[i]);
    forall l | 0 <= l < |h.rx| ensures h.rx[l] != h.tx[i] {
      assert h.rx[l] in h.rx;
    }
  }

  lemma RemovedTiles(segs: seq<Segment>, t: seq<Segment>, list: seq<nat>, i: nat)
    requires Linked(segs, list) && |t| == |segs| && i < |list|
    requires forall k :: 0 <= k < |list| && k != i ==> t[list[k]] == segs[list[k]]
    ensures Linked(t, list[..i] + list[i + 1..])
    ensures var tiles := TilesOf(segs, list);
      TilesOf(t, list[..i] + list[i + 1..]) == tiles[..i] + tiles[i + 1..]
  {}

  lemma TxFreed(h: Holding, i: nat, k: Holding, rx: Rx, tx: Tx)
    requires Describes(h, rx, tx) && i < |tx.tiles| && |h.tx| == |tx.tiles| && h.Frees(tx.tiles[i].id, k)
    ensures h.KeptBy(k) && Describes(k, rx, FreeAt(tx, i))
  {
    hide Wiped, Without, QueuedOnce;
    TxAlone(h, i, rx, tx);
    FreedKept(h, h.tx[i]);
    KeptOk(h, k);
    StillQueuedOnce(h.tx, tx.priority, tx.queue, tx.waiting, h.tx[i]);
    RemovedTiles(h.segs, k.segs, h.tx, i);
    SamePieces(h.segs, k.segs, h.rx);
  }

  lemma DequeuedDescribed(h: Holding, rx: Rx, tx: Tx, id: nat)
    requires Describes(h, rx, tx)
    ensures h.KeptBy(h)
    ensures Describes(h, rx, tx.(priority := Without<nat>(tx.priority, id), queue := Without<nat>(tx.queue, id),
                                 waiting := Without<nat>(tx.waiting, id)))
  {
    hide Without;
    WithoutCounts<nat>(tx.priority, id);
    WithoutCounts<nat>(tx.queue, id);
    WithoutCounts<nat>(tx.waiting, id);
    LessQueued(multiset(tx.priority), multiset(tx.queue), multiset(tx.waiting), multiset(h.tx), id);
  }

  lemma LessQueued(p: multiset<nat>, q: multiset<nat>, w: multiset<nat>, t: multiset<nat>, id: nat)
    requires p + q + w <= t
    ensures (p - multiset{id}) + (q - multiset{id}) + (w - multiset{id}) <= t
  {}

  lemma PromotedDescribed(h: Holding, rx: Rx, tx: Tx, i: nat)
    requires Describes(h, rx, tx) && i < |tx.waiting|
    ensures h.KeptBy(h)
    ensures Describes(h, rx,
      tx.(waiting := tx.waiting[..i] + tx.waiting[i + 1..], priority := tx.priority + [tx.waiting[i]]))
  {
    assert tx.waiting == tx.waiting[..i] + [tx.waiting[i]] + tx.waiting[i + 1..];
    assert multiset(tx.priority + [tx.waiting[i]]) == multiset(tx.priority) + multiset{tx.waiting[i]};
  }

  /** The segment is in no queue. */
  ghost predicate Unqueued(tx: Tx, id: nat) {
    id !in tx.priority && id !in tx.queue && id !in tx.waiting
  }

  lemma UnqueuedSame(tx: Tx, u: Tx, id: nat)
    requires Unqueued(tx, id) && u.priority == tx.priority && u.queue == tx.queue && u.waiting == tx.waiting
    ensures Unqueued(u, id)
  {}

  /** The first item of a queue is in no queue once it has been taken out. */
  lemma HeadTaken(t: seq<nat>, p: seq<nat>, others: multiset<nat>)
    requires multiset(p) + others <= multiset(t) && NoDup(t) && p != []
    ensures multiset(p[1..]) + others <= multiset(t) && p[0] !in p[1..] && p[0] !in others
  {
    NoDupCounts(t);
    assert p == [p[0]] + p[1..];
    assert (multiset(p) + others)[p[0]] <= multiset(t)[p[0]] <= 1;
    assert p[0] !in multiset(p[1..]);
  }

  lemma PriorityTaken(h: Holding, rx: Rx, tx: Tx)
    requires Describes(h, rx, tx) && tx.priority != []
    ensures Describes(h, rx, TakePriority(tx)) && Unqueued(TakePriority(tx), tx.priority[0]) && h.KeptBy(h)
  {
    HoldingLists(h);
    HeadTaken(h.tx, tx.priority, multiset(tx.queue) + multiset(tx.waiting));
  }

  lemma WaitingTaken(h: Holding, rx: Rx, tx: Tx)
    requires Describes(h, rx, tx) && tx.waiting != []
    ensures var u := tx.(waiting := tx.waiting[1..]); Describes(h, rx, u) && Unqueued(u, tx.waiting[0]) && h.KeptBy(h)
  {
    HoldingLists(h);
    HeadTaken(h.tx, tx.waiting, multiset(tx.priority) + multiset(tx.queue));
  }

  lemma NewTaken(h: Holding, rx: Rx, tx: Tx)
    requires Describes(h, rx, tx) && 0 < |tx.queue| <= |tx.tiles|
    ensures Describes(h, rx, TakeNew(tx)) && Unqueued(TakeNew(tx), tx.queue[0]) && h.KeptBy(h)
  {
    HoldingLists(h);
    HeadTaken(h.tx, tx.queue, multiset(tx.priority) + multiset(tx.waiting));
  }

  /** A segment in no queue may join the waiting queue. */
  /** What ulTCPWindowTxGet sends, case by case. */
  lemma GetCases(tx: Tx, window: uint32, expired: bool)
    requires QueuesOk(tx.tiles, tx.queue, tx.priority, tx.waiting, tx.head)
    ensures |tx.queue| <= |tx.tiles|
    ensures var v := tx.(ourSeq := tx.highest); var got := TxWindow.TxGet(tx, window, expired);
      if tx.priority != [] then
        && (exists i :: 0 <= i < |tx.tiles| && tx.tiles[i].id == tx.priority[0])
        && var i := Named(tx.tiles, tx.priority[0]);
           got == (Transmit(TakePriority(v), i), Some(i))
      else if tx.waiting != [] && expired then
        && (exists i :: 0 <= i < |tx.tiles| && tx.tiles[i].id == tx.waiting[0])
        && var i := Named(tx.tiles, tx.waiting[0]);
           got == (Transmit(TakeWaiting(v, i), i), Some(i))
      else if tx.queue == [] then got == (v, None)
      else
        && tx.queue[0] == tx.tiles[tx.Sent()].id
        && var t := tx.tiles[tx.Sent()];
           got == if (tx.sendFullSize && t.length < t.maxLength) || !HasSpace(v, t, window) then (v, None)
                  else (Transmit(TakeNew(v), tx.Sent()), Some(tx.Sent()))
  {
    hide Transmit, HasSpace, TakePriority, TakeWaiting, TakeNew;
    if tx.priority != [] {
      QueuedNamed(tx.tiles, |tx.tiles| - |tx.queue|, tx.priority, tx.waiting, tx.priority[0]);
    } else if tx.waiting != [] && expired {
      QueuedNamed(tx.tiles, |tx.tiles| - |tx.queue|, tx.priority, tx.waiting, tx.waiting[0]);
    }
  }

  lemma SentDescribed(h: Holding, rx: Rx, tx: Tx, i: nat, u: Tx)
    requires Describes(h, rx, tx) && i < |tx.tiles| && Unqueued(tx, tx.tiles[i].id)
    requires u.tiles == tx.tiles && u.priority == tx.priority && u.queue == tx.queue
    requires u.waiting == tx.waiting + [tx.tiles[i].id]
    ensures Describes(h, rx, u) && h.KeptBy(h)
  {}

  /** Only lists and queues matter for what is described. */
  lemma DescribesMore(h: Holding, rx: Rx, tx: Tx, u: Tx)
    requires Describes(h, rx, tx) && u.tiles == tx.tiles
    requires u.priority == tx.priority && u.queue == tx.queue && u.waiting == tx.waiting
    ensures Describes(h, rx, u)
  {}

  lemma GrowOnceOrNot(tx: Tx, left: uint32, position: nat, length: nat, free: seq<nat>)
    requires 0 < tx.mss && position < length && left <= length && left != 0
    ensures free == [] ==> Grow(tx, left, position, length, free) == (tx, free, 0)
    ensures free != [] ==>
      var k := Min(left, tx.mss);
      var u := Append(tx, free[0], k, position);
      && 0 < k <= left && u.mss == tx.mss
      && var g := Grow(u, left - k, Advance(position, k, length), length, free[1..]);
         Grow(tx, left, position, length, free) == (g.0, g.1, k + g.2)
  {}

  lemma MoreQueuedOnce(tx: seq<nat>, priority: seq<nat>, queue: seq<nat>, waiting: seq<nat>, id: nat)
    requires QueuedOnce(tx, priority, queue, waiting)
    ensures QueuedOnce(tx + [id], priority, queue + [id], waiting)
  {}

  lemma RxGiven(h: Holding, s: Segment, k: Holding, rx: Rx, tx: Tx)
    requires Describes(h, rx, tx) && h.Gives(s, true, k)
    ensures h.KeptBy(k) && Describes(k, rx.(segments := rx.segments + [PieceOf(s)]), tx)
  {
    hide Holding.Ok, Holding.KeptBy, Holding.Gives, QueuedOnce, Linked, TilesOf, PiecesOf;
    GivenParts(h, s, true, k);
    MoreTiles(h.segs, h.tx, h.free[0], s);
    MorePieces(h.segs, h.rx, h.free[0], s);
  }

  /** A stored segment is in no list for transmission. */
  lemma RxAlone(h: Holding, i: nat, rx: Rx, tx: Tx)
    requires Describes(h, rx, tx) && i < |h.rx|
    ensures h.rx[i] in h.rx && Without<nat>(h.rx, h.rx[i]) == RemoveAt(h.rx, i)
    ensures Without<nat>(h.tx, h.rx[i]) == h.tx && forall l :: 0 <= l < |h.tx| ==> h.tx[l] != h.rx[i]
    ensures forall l :: 0 <= l < |h.rx| && l != i ==> h.rx[l] != h.rx[i]
    ensures Without<nat>(tx.priority, h.rx[i]) == tx.priority && Without<nat>(tx.queue, h.rx[i]) == tx.queue
    ensures Without<nat>(tx.waiting, h.rx[i]) == tx.waiting
  {
    HoldingLists(h);
    hide Without;
    assert h.rx[i] in h.rx;
    WithoutAt(h.rx, i);
    WithoutForeign(h.tx, h.rx[i]);
    NotQueued(h.tx, tx.priority, tx.queue, tx.waiting, h.rx[i]);
    forall l | 0 <= l < |h.tx| ensures h.tx[l] != h.rx[i] {
      assert h.tx[l] in h.tx;
    }
  }

  lemma RxFreed(h: Holding, i: nat, k: Holding, rx: Rx, tx: Tx)
    requires Describes(h, rx, tx) && i < |h.rx| && h.Frees(h.rx[i], k)
    ensures |h.rx| == |rx.segments|
    ensures h.KeptBy(k) && Describes(k, rx.(segments := RemoveAt(rx.segments, i)), tx)
    ensures tx == tx.(priority := Without<nat>(tx.priority, h.rx[i]), queue := Without<nat>(tx.queue, h.rx[i]),
                      waiting := Without<nat>(tx.waiting, h.rx[i]))
  {
    hide Wiped, Without, QueuedOnce;
    RxAlone(h, i, rx, tx);
    FreedKept(h, h.rx[i]);
    KeptOk(h, k);
    RemovedPieces(h.segs, k.segs, h.rx, i);
    SameTiles(h.segs, k.segs, h.tx);
  }
}
