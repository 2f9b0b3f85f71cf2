/** The pool of segment descriptors that all TCP windows share (FreeRTOS_TCP_WIN.c).

    A pointer to a descriptor is its index in the pool; a kernel list of descriptors is the
    sequence of the indices it links. */
module Segments {
  import opened Common

  datatype Segment = Segment(seqNo: uint32, maxLength: uint32, dataLength: uint32, streamPos: nat,
                             transmitCount: byte, dupAckCount: byte,
                             outstanding: bool, acked: bool, isForRx: bool)

  /** A descriptor as New hands it out. */
  function Fresh(s: Segment, seqNo: uint32, count: uint32, isForRx: bool): Segment {
    Segment(seqNo, count, count, s.streamPos, 0, 0, false, false, isForRx)
  }

  /** A descriptor as it goes back to the pool. */
  function Wiped(s: Segment): Segment {
    Segment(0, s.maxLength, 0, s.streamPos, 0, 0, false, false, false)
  }

  const BLANK := Segment(0, 0, 0, 0, 0, 0, false, false, false)

  /** Every link of the list leads to a descriptor. */
  predicate Linked(segs: seq<Segment>, list: seq<nat>) {
    forall k :: 0 <= k < |list| ==> list[k] < |segs|
  }

  class SegmentPool {
    const segments: array<Segment>
    var free: seq<nat>

    ghost function Segs(): (s: seq<Segment>)
      reads segments
      ensures |s| == segments.Length
    {
      segments[..]
    }

    constructor (count: nat)
      ensures fresh(segments) && segments.Length == count
      ensures Segs() == seq(count, _ => BLANK)
      ensures free == seq(count, i => i)
    {
      segments := new Segment[count](_ => BLANK);
      free := [];
      new;
      var i := 0;
      while i < count
        invariant i <= count && free == seq(i, j => j)
        invariant Segs() == seq(count, _ => BLANK)
      {
        free := free + [i];
        i := i + 1;
      }
    }

    /** Takes the first free descriptor for count bytes at seqNo, if there is any. */
    method New(seqNo: uint32, count: uint32, isForRx: bool) returns (id: Option<nat>)
      requires Linked(Segs(), free)
      modifies this, segments
      ensures old(free) == [] ==> id == None && free == [] && Segs() == old(Segs())
      ensures old(free) != [] ==>
        && id == Some(old(free)[0]) && free == old(free)[1..]
        && Segs() == old(Segs())[id.value := Fresh(old(Segs())[id.value], seqNo, count, isForRx)]
    {
      if free == [] {
        id := None;
      } else {
        id := Some(free[0]);
        free := free[1..];
        Set(id.value, Fresh(segments[id.value], seqNo, count, isForRx));
      }
    }

    /** Puts a descriptor at the end of the free list. */
    method Release(id: nat)
      requires id < segments.Length
      modifies this, segments
      ensures free == old(free) + [id]
      ensures Segs() == old(Segs())[id := Wiped(old(Segs())[id])]
    {
      Set(id, Wiped(segments[id]));
      free := free + [id];
    }

    method Set(id: nat, s: Segment)
      requires id < segments.Length
      modifies segments
      ensures Segs() == old(Segs())[id := s]
    {
      segments[id] := s;
    }
  }

  // ---- Who owns which descriptor --------------------------------------------------------

  /** The descriptors and, seen from one window, the lists that link them: the free list and the
      window's segments for reception and transmission. */
  datatype Holding = Holding(segs: seq<Segment>, free: seq<nat>, rx: seq<nat>, tx: seq<nat>) {
    ghost function Owned(): multiset<nat> {
      multiset(free) + multiset(rx) + multiset(tx)
    }

    /** No descriptor is linked twice. */
    ghost predicate Ok() {
      true <==> forall id :: id in Owned() ==> Owned()[id] == 1 && id < |segs|
    }

    /** The same descriptors are linked, and all others are as they were. */
    ghost predicate KeptBy(h: Holding) {
      true <==>
      && |h.segs| == |segs| && h.Owned() == Owned()
      && forall id :: 0 <= id < |segs| && id !in Owned() ==> h.segs[id] == segs[id]
    }

    /** What h holds once the first free descriptor, written as s, has gone to the window. */
    ghost predicate Gives(s: Segment, forRx: bool, h: Holding) {
      true <==>
      && free != [] && free[0] < |segs| && h.segs == segs[free[0] := s] && h.free == free[1..]
      && h.rx == (if forRx then rx + [free[0]] else rx) && h.tx == (if forRx then tx else tx + [free[0]])
    }

    /** What h holds once a descriptor of this holding has been freed. */
    ghost predicate Frees(id: nat, h: Holding) {
      true <==>
      && id < |segs| && h.segs == segs[id := Wiped(segs[id])] && h.free == free + [id]
      && h.rx == Without<nat>(rx, id) && h.tx == Without<nat>(tx, id)
    }
  }

  lemma HoldingLists(h: Holding)
    requires h.Ok()
    ensures NoDup(h.free) && NoDup(h.rx) && NoDup(h.tx)
    ensures Linked(h.segs, h.free) && Linked(h.segs, h.rx) && Linked(h.segs, h.tx)
    ensures forall id :: id in h.rx ==> id !in h.tx && id !in h.free
    ensures forall id :: id in h.tx ==> id !in h.rx && id !in h.free
  {
    forall id ensures multiset(h.free)[id] <= 1 && multiset(h.rx)[id] <= 1 && multiset(h.tx)[id] <= 1 {
      assert id in h.Owned() || id !in h.Owned();
    }
    CountsNoDup(h.free);
    CountsNoDup(h.rx);
    CountsNoDup(h.tx);
    LinkedList(h, h.free);
    LinkedList(h, h.rx);
    LinkedList(h, h.tx);
    forall id | id in h.rx ensures id !in h.tx && id !in h.free {
      assert multiset(h.rx)[id] > 0 && id in h.Owned();
    }
    forall id | id in h.tx ensures id !in h.rx && id !in h.free {
      assert multiset(h.tx)[id] > 0 && id in h.Owned();
    }
  }

  lemma LinkedList(h: Holding, list: seq<nat>)
    requires h.Ok() && multiset(list) <= h.Owned()
    ensures Linked(h.segs, list)
  {
    forall k | 0 <= k < |list| ensures list[k] < |h.segs| {
      assert list[k] in multiset(list);
    }
  }

  lemma KeptOk(h: Holding, k: Holding)
    requires h.Ok() && h.KeptBy(k)
    ensures k.Ok()
  {}

  lemma KeptTransitive(h: Holding, k: Holding, l: Holding)
    requires h.KeptBy(k) && k.KeptBy(l)
    ensures h.KeptBy(l)
  {}

  lemma Unlinking(list: seq<nat>, id: nat)
    ensures id in list ==> multiset(Without<nat>(list, id)) + multiset{id} == multiset(list)
    ensures id !in list ==> Without<nat>(list, id) == list
  {
    if id in list {
      WithoutCounts<nat>(list, id);
      assert multiset(list)[id] > 0;
    } else {
      WithoutForeign(list, id);
    }
  }

  /** A descriptor moves from a window to the free list. */
  lemma FreedKept(h: Holding, id: nat)
    requires h.Ok() && (id in h.rx || id in h.tx)
    ensures id < |h.segs|
    ensures forall k: Holding :: h.Frees(id, k) ==> h.KeptBy(k)
  {
    OwnedOnce(h, id);
    var k := Holding(h.segs[id := Wiped(h.segs[id])], h.free + [id], Without<nat>(h.rx, id), Without<nat>(h.tx, id));
    Unlinking(h.rx, id);
    Unlinking(h.tx, id);
    hide Wiped, Without;
    assert multiset(h.free + [id]) == multiset(h.free) + multiset{id};
    assert k.Owned() == h.Owned();
    assert id in h.Owned();
  }

  lemma OwnedOnce(h: Holding, id: nat)
    requires h.Ok() && (id in h.rx || id in h.tx)
    ensures id < |h.segs| && id in h.Owned() && !(id in h.rx && id in h.tx) && id !in h.free
  {}

  /** The first free descriptor moves to a window. */
  lemma GivenKept(h: Holding, s: Segment, forRx: bool, k: Holding)
    requires h.Ok() && h.Gives(s, forRx, k)
    ensures h.KeptBy(k)
  {
    var id := h.free[0];
    assert h.free == [id] + h.free[1..];
    assert id in multiset(h.free);
    assert k.Owned() == h.Owned();
  }

  /** A linked descriptor is written. */
  lemma WrittenKept(h: Holding, id: nat, s: Segment)
    requires h.Ok() && id < |h.segs| && (id in h.rx || id in h.tx)
    ensures h.KeptBy(h.(segs := h.segs[id := s]))
  {}

  // ---- Any number of windows ------------------------------------------------------------

  /** The descriptors that the windows of a list hold. */
  ghost function Held(windows: seq<multiset<nat>>): multiset<nat> {
    if windows == [] then multiset{} else windows[0] + Held(windows[1..])
  }

  /** Every descriptor of the pool is in exactly one place: the free list, or one window. */
  ghost predicate Partition(count: nat, free: seq<nat>, windows: seq<multiset<nat>>) {
    forall id :: (multiset(free) + Held(windows))[id] == if 0 <= id < count then 1 else 0
  }

  lemma {:induction false} HeldReplaced(windows: seq<multiset<nat>>, i: nat, after: multiset<nat>)
    requires i < |windows|
    ensures Held(windows) - windows[i] + after == Held(windows[i := after])
    ensures windows[i] <= Held(windows)
  {
    if i > 0 {
      HeldReplaced(windows[1..], i - 1, after);
      assert windows[i := after][1..] == windows[1..][i - 1 := after];
    }
  }

  /** Whatever one of any number of windows does with the pool, every descriptor stays in exactly
      one place. */
  lemma PartitionKept(count: nat, windows: seq<multiset<nat>>, i: nat, h: Holding, k: Holding)
    requires i < |windows| && windows[i] == multiset(h.rx) + multiset(h.tx)
    requires Partition(count, h.free, windows) && h.KeptBy(k)
    ensures Partition(count, k.free, windows[i := multiset(k.rx) + multiset(k.tx)])
  {
    var after := multiset(k.rx) + multiset(k.tx);
    HeldReplaced(windows, i, after);
    assert multiset(h.free) + Held(windows) == h.Owned() + (Held(windows) - windows[i]);
    assert multiset(k.free) + Held(windows[i := after]) == k.Owned() + (Held(windows) - windows[i]);
  }
}
