/** The reception half of a TCP window (FreeRTOS_TCP_WIN.c): which arriving segments are
    accepted, remembered, or refused, and how far the next expected number moves.

    Offsets count from the next expected sequence number. */
module RxWindow {
  import opened Common
  import opened Seq32

  /** A stored segment: its first sequence number and its length. */
  datatype Piece = Piece(seqNo: uint32, length: uint32)

  /** A selective acknowledgement: first byte held, last byte held plus one. */
  datatype Block = Block(first: uint32, last: uint32)

  datatype Rx = Rx(current: uint32, segments: seq<Piece>, userDataLength: uint32, sack: Option<Block>)

  /** Where a stored segment lies, seen from sequence number base. */
  function Offset(p: Piece, base: uint32): nat {
    Sub(p.seqNo, base)
  }

  function End(p: Piece, base: uint32): nat {
    Offset(p, base) + p.length
  }

  /** Two segments have no byte in common. */
  predicate Apart(p: Piece, q: Piece, base: uint32) {
    End(p, base) <= Offset(q, base) || End(q, base) <= Offset(p, base)
  }

  /** A non-empty segment with all its bytes at offsets from low up to limit. */
  predicate Within(p: Piece, base: uint32, low: nat, limit: nat) {
    low <= Offset(p, base) && 0 < p.length && End(p, base) <= limit
  }

  /** What is remembered of out-of-order data: no two stored segments share a byte. */
  ghost predicate Stored(list: seq<Piece>, base: uint32, low: nat, limit: nat) {
    && limit < TWO31
    && (forall i :: 0 <= i < |list| ==> Within(list[i], base, low, limit))
    && (forall i, j :: 0 <= i < |list| && 0 <= j < |list| && i != j ==> Apart(list[i], list[j], base))
  }

  function RemoveAt<T>(s: seq<T>, i: nat): (r: seq<T>)
    requires i < |s|
    ensures |r| == |s| - 1
    ensures forall k :: 0 <= k < |r| ==> r[k] == s[if k < i then k else k + 1]
  {
    s[..i] + s[i + 1..]
  }

  // ---- Searching ------------------------------------------------------------------------

  /** The position of the first segment from position i on that starts at seqNo. */
  function FindFrom(list: seq<Piece>, i: nat, seqNo: uint32): (r: Option<nat>)
    requires i <= |list|
    ensures r.Some? ==> i <= r.value < |list| && list[r.value].seqNo == seqNo
    ensures r.None? ==> forall k :: i <= k < |list| ==> list[k].seqNo != seqNo
    decreases |list| - i
  {
    if i == |list| then None
    else if list[i].seqNo == seqNo then Some(i)
    else FindFrom(list, i + 1, seqNo)
  }

  function Find(list: seq<Piece>, seqNo: uint32): (r: Option<nat>) {
    FindFrom(list, 0, seqNo)
  }

  /** first <= seqNo < next, as the source tests it. */
  predicate Inside(seqNo: uint32, first: uint32, next: uint32) {
    GreaterOrEqual(seqNo, first) && Less(seqNo, next)
  }

  /** The better candidate after looking at one more segment. */
  function Better(list: seq<Piece>, best: Option<nat>, i: nat, first: uint32, next: uint32): Option<nat>
    requires i < |list| && (best.Some? ==> best.value < |list|)
  {
    if Inside(list[i].seqNo, first, next)
       && (best.None? || Less(list[i].seqNo, list[best.value].seqNo))
    then Some(i) else best
  }

  /** The position of the lowest segment that starts inside [first, next), if any. */
  function LowestFrom(list: seq<Piece>, i: nat, best: Option<nat>, first: uint32, next: uint32): (r: Option<nat>)
    requires i <= |list| && (best.Some? ==> best.value < |list|)
    ensures r.Some? ==> r.value < |list|
    decreases |list| - i
  {
    if i == |list| then best
    else LowestFrom(list, i + 1, Better(list, best, i, first, next), first, next)
  }

  function Lowest(list: seq<Piece>, first: uint32, next: uint32): (r: Option<nat>)
    ensures r.Some? ==> r.value < |list|
  {
    LowestFrom(list, 0, None, first, next)
  }

  /** Takes every stored segment that continues at number cur out of the list. */
  function Drain(list: seq<Piece>, cur: uint32): (r: (seq<Piece>, uint32))
    decreases |list|
  {
    match Find(list, cur)
    case None => (list, cur)
    case Some(i) => Drain(RemoveAt(list, i), Add(cur, list[i].length))
  }

  /** The offset at which the run of stored segments that starts at offset x ends. */
  function Chain(list: seq<Piece>, base: uint32, x: nat, low: nat, limit: nat): (end: nat)
    requires Stored(list, base, low, limit) && x <= limit
    ensures x <= end <= limit
    decreases limit - x
  {
    match Find(list, Add(base, x))
    case None => x
    case Some(i) =>
      assert Within(list[i], base, low, limit);
      Chain(list, base, x + list[i].length, low, limit)
  }

  // ---- Accepting a segment --------------------------------------------------------------

  /** The expected segment arrived and fits. */
  function InOrder(rx: Rx, length: uint32): (r: Rx) {
    var next := Add(rx.current, length);
    if rx.segments == [] then rx.(current := next)
    else
      var best := Lowest(rx.segments, rx.current, next);
      var (l, c) := match best
        case None => Drain(rx.segments, next)
        case Some(i) => Drain(RemoveAt(rx.segments, i), Add(rx.segments[i].seqNo, rx.segments[i].length));
      rx.(current := c, segments := l, userDataLength := if c != next then Sub(c, next) else 0)
  }

  /** A segment ahead of the expected one arrived and lies within the space; it needs a free
      descriptor. */
  function OutOfOrder(rx: Rx, seqNo: uint32, length: uint32, space: nat, available: bool): (r: (Rx, int))
    requires Stored(rx.segments, rx.current, 1, space)
    requires Sub(Add(seqNo, length), rx.current) <= space
  {
    var last := Chain(rx.segments, rx.current, Sub(Add(seqNo, length), rx.current), 1, space);
    var sack := Some(Block(seqNo, Add(rx.current, last)));
    if Find(rx.segments, seqNo).Some? then (rx.(sack := sack), -1)
    else if !available then (rx, -1)
    else (rx.(sack := sack, segments := rx.segments + [Piece(seqNo, length)]), Int32(Sub(seqNo, rx.current)))
  }

  /** The verdict on an arriving segment: 0 for the expected one, a positive offset for one to
      be stored ahead, negative for one that is not to be stored. */
  function Check(rx: Rx, seqNo: uint32, length: uint32, space: nat, available: bool): (r: (Rx, int))
    requires Stored(rx.segments, rx.current, 1, space)
  {
    var rx := rx.(sack := None, userDataLength := 0);
    if rx.current == seqNo then
      if length > space then (rx, -1) else (InOrder(rx, length), 0)
    else if rx.current == Add(seqNo, 1) then (rx, -1)
    else
      var distance := Int32(Sub(Add(seqNo, length), rx.current));
      if distance <= 0 || distance > space then (rx, -1)
      else OutOfOrder(rx, seqNo, length, space, available)
  }

  // ---- What searching finds -------------------------------------------------------------

  lemma FindOffset(list: seq<Piece>, base: uint32, x: nat)
    requires x < TWO32
    ensures var r := Find(list, Add(base, x));
      && (r.Some? ==> Offset(list[r.value], base) == x)
      && (r.None? ==> forall k :: 0 <= k < |list| ==> Offset(list[k], base) != x)
  {}

  /** A byte of some stored segment. */
  ghost predicate Held(list: seq<Piece>, base: uint32, y: int) {
    exists i :: 0 <= i < |list| && Offset(list[i], base) <= y < End(list[i], base)
  }

  /** Every byte of a chain is held, and no stored segment starts where the chain ends. */
  lemma {:induction false} ChainHeld(list: seq<Piece>, base: uint32, x: nat, low: nat, limit: nat, y: nat)
    requires Stored(list, base, low, limit) && x <= limit
    ensures x <= y < Chain(list, base, x, low, limit) ==> Held(list, base, y)
    ensures forall i :: 0 <= i < |list| ==> Offset(list[i], base) != Chain(list, base, x, low, limit)
    decreases limit - x
  {
    FindOffset(list, base, x);
    var r := Find(list, Add(base, x));
    if r.Some? {
      assert Within(list[r.value], base, low, limit);
      ChainHeld(list, base, x + list[r.value].length, low, limit, y);
      if x <= y < x + list[r.value].length {
        assert Offset(list[r.value], base) <= y < End(list[r.value], base);
      }
    }
  }

  /** A segment that starts inside a chain also ends inside it. */
  lemma {:induction false} ChainEncloses(list: seq<Piece>, base: uint32, x: nat, low: nat, limit: nat, k: nat)
    requires Stored(list, base, low, limit) && x <= limit && k < |list|
    requires x <= Offset(list[k], base) < Chain(list, base, x, low, limit)
    ensures End(list[k], base) <= Chain(list, base, x, low, limit)
    decreases limit - x
  {
    FindOffset(list, base, x);
    var i := Find(list, Add(base, x)).value;
    assert Within(list[i], base, low, limit);
    if k != i {
      assert Within(list[k], base, low, limit);
      assert Apart(list[i], list[k], base);
      ChainEncloses(list, base, x + list[i].length, low, limit, k);
    }
  }

  lemma StoredRemove(list: seq<Piece>, base: uint32, low: nat, limit: nat, i: nat)
    requires Stored(list, base, low, limit) && i < |list|
    ensures Stored(RemoveAt(list, i), base, low, limit)
  {}

  /** Stored segments at the same offset are the same segment. */
  lemma SamePlace(list: seq<Piece>, base: uint32, low: nat, limit: nat, i: nat, j: nat)
    requires Stored(list, base, low, limit) && i < |list| && j < |list|
    ensures Offset(list[i], base) == Offset(list[j], base) ==> i == j
  {}

  /** A chain does not see a segment that starts before it. */
  lemma {:induction false} ChainRemove(list: seq<Piece>, base: uint32, x: nat, low: nat, limit: nat, i: nat)
    requires Stored(list, base, low, limit) && x <= limit && i < |list|
    requires Offset(list[i], base) < x
    requires Stored(RemoveAt(list, i), base, low, limit)
    ensures Chain(RemoveAt(list, i), base, x, low, limit) == Chain(list, base, x, low, limit)
    decreases limit - x
  {
    var rest := RemoveAt(list, i);
    FindOffset(list, base, x);
    FindOffset(rest, base, x);
    var r, q := Find(list, Add(base, x)), Find(rest, Add(base, x));
    if r.Some? {
      var k := r.value;
      assert rest[if k < i then k else k - 1] == list[k];
      SamePlace(rest, base, low, limit, if k < i then k else k - 1, q.value);
      assert Within(list[k], base, low, limit);
      ChainRemove(list, base, x + list[k].length, low, limit, i);
    }
  }

  /** What is left of a list of stored segments once those of [from, to) are taken out. */
  ghost predicate Drained(list: seq<Piece>, rest: seq<Piece>, base: uint32, from: nat, to: nat) {
    && (forall k :: 0 <= k < |rest| ==> rest[k] in list && !(from <= Offset(rest[k], base) <= to))
    && (forall k :: 0 <= k < |list| ==> list[k] in rest || from <= Offset(list[k], base) < to)
  }

  /** Draining takes out exactly the segments of the chain and stops where it ends. */
  lemma {:induction false} DrainIsChain(list: seq<Piece>, base: uint32, x: nat, low: nat, limit: nat)
    requires Stored(list, base, low, limit) && x <= limit
    ensures var e := Chain(list, base, x, low, limit);
      var (rest, c) := Drain(list, Add(base, x));
      c == Add(base, e) && Stored(rest, base, low, limit) && Drained(list, rest, base, x, e)
    decreases |list|
  {
    var r := Find(list, Add(base, x));
    if r.Some? {
      var i := r.value;
      DrainOnce(list, base, x, low, limit, i);
      var l, y := RemoveAt(list, i), End(list[i], base);
      DrainIsChain(l, base, y, low, limit);
      DrainedStep(list, base, x, low, limit, i, Drain(l, Add(base, y)).0, Chain(l, base, y, low, limit));
    } else {
      FindOffset(list, base, x);
    }
  }

  lemma DrainFound(list: seq<Piece>, cur: uint32, i: nat)
    requires Find(list, cur) == Some(i)
    ensures Drain(list, cur) == Drain(RemoveAt(list, i), Add(cur, list[i].length))
  {
    hide Find;
  }

  lemma AddTwice(base: uint32, x: nat, n: nat)
    requires x + n < TWO32
    ensures Add(Add(base, x), n) == Add(base, x + n)
  {}

  lemma DrainOnce(list: seq<Piece>, base: uint32, x: nat, low: nat, limit: nat, i: nat)
    requires Stored(list, base, low, limit) && x <= limit
    requires Find(list, Add(base, x)) == Some(i)
    ensures Offset(list[i], base) == x && End(list[i], base) <= limit
    ensures Stored(RemoveAt(list, i), base, low, limit)
    ensures var l, y := RemoveAt(list, i), End(list[i], base);
      && Drain(list, Add(base, x)) == Drain(l, Add(base, y))
      && Chain(list, base, x, low, limit) == Chain(l, base, y, low, limit)
  {
    hide Drain;
    FindOffset(list, base, x);
    assert Within(list[i], base, low, limit);
    DrainFound(list, Add(base, x), i);
    AddTwice(base, x, list[i].length);
    StoredRemove(list, base, low, limit, i);
    ChainRemove(list, base, End(list[i], base), low, limit, i);
  }

  lemma DrainedStep(list: seq<Piece>, base: uint32, x: nat, low: nat, limit: nat, i: nat, rest: seq<Piece>, e: nat)
    requires Stored(list, base, low, limit) && i < |list| && Offset(list[i], base) == x
    requires End(list[i], base) <= e
    requires Drained(RemoveAt(list, i), rest, base, End(list[i], base), e)
    ensures Drained(list, rest, base, x, e)
  {
    var l := RemoveAt(list, i);
    assert Within(list[i], base, low, limit);
    forall k | 0 <= k < |list| ensures list[k] in rest || x <= Offset(list[k], base) < e {
      if k != i {
        assert l[if k < i then k else k - 1] == list[k];
      }
    }
    forall k | 0 <= k < |rest| ensures rest[k] in list && !(x <= Offset(rest[k], base) <= e) {
      assert rest[k] in l;
      var m :| 0 <= m < |l| && l[m] == rest[k];
      var m' := if m < i then m else m + 1;
      assert list[m'] == rest[k];
      assert Within(list[m'], base, low, limit);
      assert Apart(list[i], list[m'], base);
    }
  }

  /** The candidate of the search after the first i segments. */
  ghost predicate LowestSoFar(list: seq<Piece>, i: nat, best: Option<nat>, base: uint32, length: nat)
    requires i <= |list|
  {
    match best
    case None => forall k :: 0 <= k < i ==> Offset(list[k], base) >= length
    case Some(b) =>
      && b < i && Offset(list[b], base) < length
      && forall k :: 0 <= k < i && Offset(list[k], base) < length ==> Offset(list[b], base) <= Offset(list[k], base)
  }

  /** The search finds the stored segment with the lowest offset below length. */
  lemma {:induction false} LowestIsLowest(list: seq<Piece>, i: nat, best: Option<nat>, base: uint32, length: uint32,
                                          low: nat, limit: nat)
    requires Stored(list, base, low, limit) && i <= |list| && length < TWO31
    requires LowestSoFar(list, i, best, base, length)
    ensures LowestSoFar(list, |list|, LowestFrom(list, i, best, base, Add(base, length)), base, length)
    decreases |list| - i
  {
    hide Better, Stored;
    if i < |list| {
      BetterIsLowest(list, i, best, base, length, low, limit);
      LowestIsLowest(list, i + 1, Better(list, best, i, base, Add(base, length)), base, length, low, limit);
    }
  }

  lemma BetterIsLowest(list: seq<Piece>, i: nat, best: Option<nat>, base: uint32, length: uint32, low: nat, limit: nat)
    requires Stored(list, base, low, limit) && i < |list| && length < TWO31
    requires LowestSoFar(list, i, best, base, length)
    ensures LowestSoFar(list, i + 1, Better(list, best, i, base, Add(base, length)), base, length)
  {
    assert Within(list[i], base, low, limit);
    InsideIsBelow(list[i], base, length);
    if best.Some? {
      assert Within(list[best.value], base, low, limit);
      assert Less(list[i].seqNo, list[best.value].seqNo) <==> Offset(list[i], base) < Offset(list[best.value], base);
    }
  }

  lemma InsideIsBelow(p: Piece, base: uint32, length: uint32)
    requires Offset(p, base) < TWO31 && length < TWO31
    ensures Inside(p.seqNo, base, Add(base, length)) <==> Offset(p, base) < length
  {}

  // ---- The expected segment -------------------------------------------------------------

  /** Where the next expected number lands when the expected segment has the given length. */
  function InOrderEnd(list: seq<Piece>, base: uint32, length: uint32, limit: nat): (e: nat)
    requires Stored(list, base, 1, limit) && length <= limit
    ensures e <= limit
  {
    match Lowest(list, base, Add(base, length))
    case None => Chain(list, base, length, 1, limit)
    case Some(i) =>
      assert Within(list[i], base, 1, limit);
      Chain(list, base, End(list[i], base), 1, limit)
  }

  /** What stays remembered after the expected number has moved by e for length new bytes. */
  ghost predicate Settled(list: seq<Piece>, rest: seq<Piece>, base: uint32, length: nat, e: nat, limit: nat) {
    && Stored(rest, base, 1, limit)
    && (forall k :: 0 <= k < |rest| ==> rest[k] in list)
    && (e >= length ==> forall k :: 0 <= k < |rest| ==> Offset(rest[k], base) > e)
  }

  lemma NothingInside(list: seq<Piece>, base: uint32, length: uint32, limit: nat)
    requires Stored(list, base, 1, limit) && length <= limit
    requires Lowest(list, base, Add(base, length)) == None
    ensures var (rest, c) := Drain(list, Add(base, length)); var e := Chain(list, base, length, 1, limit);
      c == Add(base, e) && Settled(list, rest, base, length, e, limit)
  {
    DrainIsChain(list, base, length, 1, limit);
    LowestIsLowest(list, 0, None, base, length, 1, limit);
  }

  lemma LowestInside(list: seq<Piece>, base: uint32, length: uint32, limit: nat, i: nat, rest: seq<Piece>)
    requires Stored(list, base, 1, limit) && length <= limit
    requires Lowest(list, base, Add(base, length)) == Some(i)
    requires End(list[i], base) <= limit
    requires Drained(RemoveAt(list, i), rest, base, End(list[i], base), Chain(list, base, End(list[i], base), 1, limit))
    requires Stored(rest, base, 1, limit)
    ensures Settled(list, rest, base, length, Chain(list, base, End(list[i], base), 1, limit), limit)
  {
    LowestIsLowest(list, 0, None, base, length, 1, limit);
    var l, e := RemoveAt(list, i), Chain(list, base, End(list[i], base), 1, limit);
    forall k | 0 <= k < |rest|
      ensures rest[k] in list && (e >= length ==> Offset(rest[k], base) > e)
    {
      assert rest[k] in l;
      var m :| 0 <= m < |l| && l[m] == rest[k];
      var m' := if m < i then m else m + 1;
      assert list[m'] == rest[k];
      assert Within(list[m'], base, 1, limit) && Within(list[i], base, 1, limit);
      assert Apart(list[i], list[m'], base);
    }
  }

  lemma LowestDrained(list: seq<Piece>, base: uint32, length: uint32, limit: nat, i: nat)
    requires Stored(list, base, 1, limit) && length <= limit
    requires Lowest(list, base, Add(base, length)) == Some(i)
    ensures End(list[i], base) <= limit
    ensures var (rest, c) := Drain(RemoveAt(list, i), Add(list[i].seqNo, list[i].length));
      var e := Chain(list, base, End(list[i], base), 1, limit);
      c == Add(base, e) && Settled(list, rest, base, length, e, limit)
  {
    assert Within(list[i], base, 1, limit);
    var y := End(list[i], base);
    assert Add(list[i].seqNo, list[i].length) == Add(base, y);
    StoredRemove(list, base, 1, limit, i);
    ChainRemove(list, base, y, 1, limit, i);
    DrainIsChain(RemoveAt(list, i), base, y, 1, limit);
    LowestInside(list, base, length, limit, i, Drain(RemoveAt(list, i), Add(base, y)).0);
  }

  /** The whole effect of an expected segment that fits. */
  lemma InOrderEffect(rx: Rx, length: uint32, limit: nat)
    requires Stored(rx.segments, rx.current, 1, limit) && 0 < length <= limit && rx.userDataLength == 0
    ensures var r := InOrder(rx, length); var e := InOrderEnd(rx.segments, rx.current, length, limit);
      && r.current == Add(rx.current, e)
      && r.userDataLength == (if e >= length then e - length else TWO32 + e - length)
      && Settled(rx.segments, r.segments, rx.current, length, e, limit)
  {
    match Lowest(rx.segments, rx.current, Add(rx.current, length))
    case None =>
      NothingInside(rx.segments, rx.current, length, limit);
    case Some(i) =>
      LowestDrained(rx.segments, rx.current, length, limit, i);
  }

  /** Between the end of the expected segment and the new expected number, every byte was held. */
  lemma InOrderHeld(list: seq<Piece>, base: uint32, length: uint32, limit: nat, y: nat)
    requires Stored(list, base, 1, limit) && length <= limit
    requires length <= y < InOrderEnd(list, base, length, limit)
    ensures Held(list, base, y)
  {
    match Lowest(list, base, Add(base, length))
    case None =>
      ChainHeld(list, base, length, 1, limit, y);
    case Some(i) =>
      LowestIsLowest(list, 0, None, base, length, 1, limit);
      assert Within(list[i], base, 1, limit);
      if y >= End(list[i], base) {
        ChainHeld(list, base, End(list[i], base), 1, limit, y);
      }
  }

  // ---- Moving the base ------------------------------------------------------------------

  /** Offsets after the expected number has moved by e. */
  lemma Rebase(p: Piece, base: uint32, e: nat)
    requires e <= Offset(p, base) < TWO31
    ensures Offset(p, Add(base, e)) == Offset(p, base) - e
  {}

  lemma StoredRebase(list: seq<Piece>, base: uint32, e: nat, limit: nat)
    requires Stored(list, base, 1, limit) && e <= limit
    requires forall k :: 0 <= k < |list| ==> Offset(list[k], base) > e
    ensures Stored(list, Add(base, e), 1, limit - e)
    ensures forall y :: Held(list, Add(base, e), y) ==> Held(list, base, y + e)
  {
    forall k | 0 <= k < |list|
      ensures Offset(list[k], Add(base, e)) == Offset(list[k], base) - e && Within(list[k], base, 1, limit)
    {
      assert Within(list[k], base, 1, limit);
      Rebase(list[k], base, e);
    }
    forall i, j | 0 <= i < |list| && 0 <= j < |list| && i != j
      ensures Apart(list[i], list[j], Add(base, e))
    {
      assert Apart(list[i], list[j], base);
    }
    forall y | Held(list, Add(base, e), y) ensures Held(list, base, y + e) {
      var i :| 0 <= i < |list| && Offset(list[i], Add(base, e)) <= y < End(list[i], Add(base, e));
      assert Offset(list[i], base) <= y + e < End(list[i], base);
    }
  }

  // ---- Selective acknowledgements -------------------------------------------------------

  /** The byte where a non-empty chain ends is not held. */
  lemma {:induction false} ChainEndFree(list: seq<Piece>, base: uint32, x: nat, low: nat, limit: nat)
    requires Stored(list, base, low, limit) && x <= limit
    requires Chain(list, base, x, low, limit) > x
    ensures !Held(list, base, Chain(list, base, x, low, limit))
  {
    var e := Chain(list, base, x, low, limit);
    FindOffset(list, base, x);
    var f := Find(list, Add(base, x)).value;
    ChainHeld(list, base, x, low, limit, x);
    forall i | 0 <= i < |list| ensures !(Offset(list[i], base) <= e < End(list[i], base)) {
      assert Within(list[i], base, low, limit) && Within(list[f], base, low, limit);
      if x <= Offset(list[i], base) < e {
        ChainEncloses(list, base, x, low, limit, i);
      } else if i != f {
        assert Apart(list[i], list[f], base);
        ChainEncloses(list, base, x, low, limit, f);
      }
    }
  }

  /** What an acknowledged block covers, before and after the segment is remembered. */
  ghost predicate AllHeld(list: seq<Piece>, base: uint32, from: nat, to: nat) {
    forall y :: from <= y < to ==> Held(list, base, y)
  }

  lemma RememberedBlock(list: seq<Piece>, base: uint32, limit: nat, p: Piece)
    requires Stored(list, base, 1, limit) && End(p, base) <= limit
    ensures AllHeld(list + [p], base, Offset(p, base), Chain(list, base, End(p, base), 1, limit))
  {
    forall y | Offset(p, base) <= y < Chain(list, base, End(p, base), 1, limit)
      ensures Held(list + [p], base, y)
    {
      if y < End(p, base) {
        assert (list + [p])[|list|] == p;
      } else {
        ChainHeld(list, base, End(p, base), 1, limit, y);
        var i :| 0 <= i < |list| && Offset(list[i], base) <= y < End(list[i], base);
        assert (list + [p])[i] == list[i];
      }
    }
  }

  /** A block acknowledged again, for a segment whose start is already stored, is held in full
      exactly when the run of stored segments from that start reaches the segment's end. */
  lemma RepeatedBlock(list: seq<Piece>, base: uint32, limit: nat, p: Piece, i: nat)
    requires Stored(list, base, 1, limit) && 0 < p.length && End(p, base) <= limit
    requires i < |list| && list[i].seqNo == p.seqNo
    ensures AllHeld(list, base, Offset(p, base), Chain(list, base, End(p, base), 1, limit))
       <==> Chain(list, base, Offset(p, base), 1, limit) >= End(p, base)
  {
    var k, n := Offset(p, base), End(p, base);
    var e := Chain(list, base, k, 1, limit);
    assert Within(list[i], base, 1, limit) && Offset(list[i], base) == k;
    ChainHeld(list, base, k, 1, limit, k);
    if e >= n {
      forall y | k <= y < Chain(list, base, n, 1, limit) ensures Held(list, base, y) {
        if y < e {
          ChainHeld(list, base, k, 1, limit, y);
        } else {
          ChainHeld(list, base, n, 1, limit, y);
        }
      }
    } else {
      ChainEndFree(list, base, k, 1, limit);
    }
  }

  // ---- Stored segments that are never freed ---------------------------------------------

  function Total(list: seq<Piece>): nat {
    if list == [] then 0 else list[0].length + Total(list[1..])
  }

  lemma {:induction false} TotalRemove(list: seq<Piece>, i: nat)
    requires i < |list|
    ensures Total(list) == list[i].length + Total(RemoveAt(list, i))
  {
    if i == 0 {
      assert RemoveAt(list, 0) == list[1..];
    } else {
      TotalRemove(list[1..], i - 1);
      assert RemoveAt(list, i)[1..] == RemoveAt(list[1..], i - 1);
    }
  }

  /** The removing loop cannot come round to a segment that is further on than all stored bytes. */
  lemma {:induction false} DrainSpares(list: seq<Piece>, cur: uint32, p: Piece)
    requires p in list && Total(list) < Sub(p.seqNo, cur)
    ensures var (rest, c) := Drain(list, cur);
      && p in rest && Sub(p.seqNo, c) <= Sub(p.seqNo, cur) <= Sub(p.seqNo, c) + Total(list)
    decreases |list|
  {
    var f := Find(list, cur);
    if f.Some? {
      var i := f.value;
      TotalRemove(list, i);
      var l := RemoveAt(list, i);
      var k :| 0 <= k < |list| && list[k] == p;
      assert l[if k < i then k else k - 1] == p;
      DrainSpares(l, Add(cur, list[i].length), p);
    }
  }

  /** A stored segment that lies below the expected number stays stored: no expected segment frees its
      descriptor, as long as the number has not moved by half the number space. */
  lemma BelowStays(rx: Rx, length: uint32, p: Piece)
    requires p in rx.segments && Sub(p.seqNo, rx.current) >= TWO31 && length + Total(rx.segments) < TWO31
    ensures p in InOrder(rx, length).segments
    ensures Sub(p.seqNo, rx.current)
      <= Sub(p.seqNo, InOrder(rx, length).current) + length + Total(rx.segments)
  {
    var base, list := rx.current, rx.segments;
    var best := Lowest(list, base, Add(base, length));
    match best
    case None => DrainSpares(list, Add(base, length), p);
    case Some(i) =>
      LowestInsideSpan(list, 0, None, base, length);
      TotalRemove(list, i);
      var k :| 0 <= k < |list| && list[k] == p;
      assert RemoveAt(list, i)[if k < i then k else k - 1] == p;
      DrainSpares(RemoveAt(list, i), Add(list[i].seqNo, list[i].length), p);
  }

  lemma {:induction false} LowestInsideSpan(list: seq<Piece>, i: nat, best: Option<nat>, base: uint32, length: uint32)
    requires i <= |list| && length < TWO31
    requires best.Some? ==> best.value < |list| && Offset(list[best.value], base) < length
    ensures var r := LowestFrom(list, i, best, base, Add(base, length));
      r.Some? ==> r.value < |list| && Offset(list[r.value], base) < length
    decreases |list| - i
  {
    if i < |list| {
      LowestInsideSpan(list, i + 1, Better(list, best, i, base, Add(base, length)), base, length);
    }
  }

  /** Of two stored segments that overlap, the later one is left behind below the expected number when
      the expected segment ends where the earlier one starts. */
  lemma OverlapLeft(rx: Rx, length: uint32, i: nat, j: nat)
    requires length + 2 * Total(rx.segments) < TWO31
    requires Lowest(rx.segments, rx.current, Add(rx.current, length)) == None
    requires Find(rx.segments, Add(rx.current, length)) == Some(i) && j < |rx.segments|
    requires length < Offset(rx.segments[j], rx.current) < End(rx.segments[i], rx.current)
    requires length + rx.segments[i].length < TWO32
    ensures var r := InOrder(rx, length); rx.segments[j] in r.segments && Sub(rx.segments[j].seqNo, r.current) >= TWO31
  {
    var base, list := rx.current, rx.segments;
    var cur := Add(base, length);
    TotalRemove(list, i);
    var l := RemoveAt(list, i);
    assert Offset(list[i], base) == length;
    assert i != j && l[if j < i then j else j - 1] == list[j];
    DrainSpares(l, Add(cur, list[i].length), list[j]);
    assert Drain(list, cur) == Drain(l, Add(cur, list[i].length));
  }
}
