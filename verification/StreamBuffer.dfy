/** The circular byte buffer behind a TCP socket (FreeRTOS_Stream_Buffer.c and its header).

    The abstract value, Ring, lists the LENGTH bytes starting at the tail, so that wrapping
    does not show: the readable bytes are view[..size] and a byte written `offset` positions
    ahead of the head is view[size + offset]. */
module StreamBuffers {
  import opened Common

  datatype Ring = Ring(view: seq<byte>, tail: nat, size: nat, mid: nat, front: nat) {

    /** tail <= head <= front going round the buffer; one slot stays empty. */
    ghost predicate Ok() {
      tail < |view| && size <= front < |view| && mid < |view|
    }

    /** The bytes a reader can get. */
    function Contents(): seq<byte>
      requires size <= |view|
    {
      view[..size]
    }

    function Space(): nat
      requires size < |view|
    {
      |view| - 1 - size
    }

    /** How many of count bytes fit, offset positions ahead of the head. */
    function Fits(offset: nat, count: nat): nat
      requires size < |view|
    {
      Min(count, Max(Space() - offset, 0))
    }

    /** The value after n bytes of data, if any, have been put offset positions ahead of the
        head. */
    function Write(offset: nat, data: Option<seq<byte>>, n: nat): Ring
      requires size + offset + n <= |view|
      requires data.Some? ==> n <= |data.value|
    {
      var at := size + offset;
      if data.None? then this
      else this.(view := view[..at] + data.value[..n] + view[at + n..])
    }

    /** The value after head and front have been moved for n bytes written at the offset. */
    function Mark(offset: nat, n: nat): Ring {
      if offset == 0
      then this.(size := size + n, front := Max(front, size + n))
      else this.(front := Max(front, size + offset))
    }

    /** The value after writing the first Fits(offset, count) bytes of data ahead of the head;
        without data only the head moves. */
    function Add(offset: nat, data: Option<seq<byte>>, count: nat): Ring
      requires size < |view|
      requires data.Some? ==> count <= |data.value|
    {
      var n := Fits(offset, count);
      if n == 0 then this else Write(offset, data, n).Mark(offset, n)
    }

    /** The value after the first n readable bytes have been taken away. */
    function Drop(n: nat): Ring
      requires n <= size <= front && size < |view| && tail < |view|
    {
      Ring(view[n..] + view[..n], Advance(tail, n, |view|), size - n,
           if mid >= n then mid - n else mid - n + |view|, front - n)
    }

    /** The bytes from the mid marker round to the head. */
    function MidSpace(): nat
      requires mid < |view|
    {
      if mid <= size then size - mid else size + |view| - mid
    }

    /** The value after the mid marker has been moved by n, but no further than the head. */
    function MoveMid(n: nat): Ring
      requires mid < |view| && size < |view|
    {
      if mid <= size then this.(mid := mid + Min(n, size - mid))
      else this.(mid := Advance(mid, Min(n, MidSpace()), |view|))
    }
  }

  /** A new, empty buffer. */
  function EmptyRing(length: nat): Ring {
    Ring(seq(length, _ => 0), 0, 0, 0, 0)
  }

  /** The length of the stream made for a socket with the given stream size: four extra bytes,
      rounded down to a multiple of four. */
  function StreamLength(size: nat): (length: nat)
    ensures length % 4 == 0 && size < length <= size + 4
  {
    (size + 4) / 4 * 4
  }

  /** A position in a buffer of the given length, count bytes further on. */
  function Advance(position: nat, count: nat, length: nat): nat
    requires position < length && count <= length
  {
    if position + count >= length then position + count - length else position + count
  }

  /** One less than the distance from lower up to upper, going round. */
  function SpaceBetween(length: nat, lower: nat, upper: nat): (count: nat)
    requires lower < length && upper < length
    ensures count == length - 1 - Distance(length, upper, lower)
  {
    var count := length + upper - lower - 1;
    if count >= length then count - length else count
  }

  /** The distance from lower up to upper, going round. */
  function Distance(length: nat, lower: nat, upper: nat): (count: nat)
    requires lower < length && upper < length
    ensures count < length && Advance(lower, count, length) == upper
  {
    var count := length + upper - lower;
    if count >= length then count - length else count
  }

  class StreamBuffer {
    var tail: nat
    var mid: nat
    var head: nat
    var front: nat
    const buf: array<byte>

    ghost predicate Valid()
      reads this, buf
    {
      && tail < buf.Length && mid < buf.Length && head < buf.Length && front < buf.Length
      && Distance(buf.Length, tail, head) <= Distance(buf.Length, tail, front)
    }

    ghost function Model(): (r: Ring)
      requires Valid()
      reads this, buf
      ensures r.Ok() && |r.view| == buf.Length && r.tail == tail
    {
      Ring(View(), tail, Distance(buf.Length, tail, head), Distance(buf.Length, tail, mid),
        Distance(buf.Length, tail, front))
    }

    /** The whole buffer, seen from the tail. */
    ghost function View(): (v: seq<byte>)
      requires tail < buf.Length
      reads this, buf
      ensures |v| == buf.Length
    {
      buf[tail..] + buf[..tail]
    }

    constructor (length: nat)
      requires length > 0
      ensures Valid() && fresh(buf) && buf.Length == length
      ensures Model() == EmptyRing(length)
    {
      buf := new byte[length](_ => 0);
      tail, mid, head, front := 0, 0, 0, 0;
    }

    function GetSpace(): (count: nat)
      requires Valid()
      reads this, buf
      ensures count == Model().Space()
    {
      SpaceBetween(buf.Length, head, tail)
    }

    function GetSize(): (count: nat)
      requires Valid()
      reads this, buf
      ensures count == Model().size
    {
      Distance(buf.Length, tail, head)
    }

    /** The bytes between the mid marker and the head. */
    function GetMidSpace(): (count: nat)
      requires Valid()
      reads this, buf
      ensures count == Model().MidSpace()
    {
      Distance(buf.Length, mid, head)
    }

    lemma Positions()
      requires Valid()
      ensures |Model().view| == buf.Length && Model().tail == tail && Model().Ok()
      ensures mid == Advance(tail, Model().mid, buf.Length)
    {}

    /** The order of two positions going round from the tail. */
    predicate LessThenEqual(left: nat, right: nat)
      requires tail < buf.Length && left < buf.Length && right < buf.Length
      reads this
      ensures LessThenEqual(left, right) <==> Distance(buf.Length, tail, left) <= Distance(buf.Length, tail, right)
    {
      if (left < tail) != (right < tail) then right < tail else left <= right
    }

    method MoveMid(count: nat)
      requires Valid()
      modifies this`mid
      ensures Valid() && Model() == old(Model()).MoveMid(count)
    {
      hide Distance, Advance;
      MarkerMoves(buf.Length, tail, mid, head, Min(count, GetMidSpace()));
      var size := GetMidSpace();
      var n := if count > size then size else count;
      mid := Advance(mid, n, buf.Length);
    }

    /** Copies data[..count] into the buffer, offset from seen from the tail, in two parts when
        it wraps. */
    method CopyIn(at: nat, data: seq<byte>, count: nat, ghost from: nat)
      requires tail < buf.Length && at < buf.Length && count <= |data|
      requires from + count < buf.Length && at == Advance(tail, from, buf.Length)
      modifies buf
      ensures View() == old(View())[..from] + data[..count] + old(View())[from + count..]
    {
      ghost var before := View();
      var first := Min(buf.Length - at, count);
      forall k | 0 <= k < first {
        buf[at + k] := data[k];
      }
      if count > first {
        forall k | 0 <= k < count - first {
          buf[k] := data[first + k];
        }
      }
      CopiedView(before, tail, buf[..], at, data, count, from);
    }

    /** Writes up to count bytes, offset positions ahead of the head; the head itself moves
        only for offset 0. */
    method Add(offset: nat, data: Option<seq<byte>>, count: nat) returns (stored: nat)
      requires Valid()
      requires data.Some? ==> count <= |data.value|
      modifies this`head, this`front, buf
      ensures Valid() && Model() == old(Model()).Add(offset, data, count)
      ensures stored == old(Model()).Fits(offset, count)
    {
      ghost var before := Model();
      var space := GetSpace();
      space := if space > offset then space - offset else 0;
      stored := Min(space, count);
      if stored != 0 {
        var nextHead := Advance(head, offset, buf.Length);
        if data.Some? {
          Placed(tail, before.size, offset, buf.Length);
          CopyIn(nextHead, data.value, stored, before.size + offset);
        }
        assert Model() == before.Write(offset, data, stored);
        MoveMarkers(offset, nextHead, stored);
      }
    }

    /** Moves the head past n bytes put at offset 0, and the front up to what was written. */
    method MoveMarkers(offset: nat, at: nat, n: nat)
      requires Valid() && offset + n <= Model().Space() && 0 < n
      requires at == Advance(head, offset, buf.Length)
      modifies this`head, this`front
      ensures Valid() && Model() == old(Model()).Mark(offset, n)
    {
      hide Distance, Advance;
      ghost var size := Model().size;
      AdvanceZero(head, buf.Length);
      DistanceOf(buf.Length, tail, size + if offset == 0 then n else offset);
      var nextHead := at;
      if offset == 0 {
        nextHead := Advance(nextHead, n, buf.Length);
        head := nextHead;
      }
      Placed(tail, size, if offset == 0 then n else offset, buf.Length);
      if LessThenEqual(front, nextHead) {
        front := nextHead;
      }
    }

    /** Copies count bytes, offset from seen from the tail, to the start of dest, in two parts
        when they wrap. */
    method CopyOut(at: nat, dest: array<byte>, count: nat, ghost from: nat)
      requires tail < buf.Length && at < buf.Length && dest != buf && count <= dest.Length
      requires from + count <= buf.Length && at == Advance(tail, from, buf.Length)
      modifies dest
      ensures dest[..count] == View()[from..from + count]
      ensures dest[count..] == old(dest[count..])
    {
      var first := Min(buf.Length - at, count);
      forall k | 0 <= k < first {
        dest[k] := buf[at + k];
      }
      if count > first {
        forall k | 0 <= k < count - first {
          dest[first + k] := buf[k];
        }
      }
      ghost var view := View();
      assert forall k :: 0 <= k < count ==> dest[k] == view[from + k] == view[from..from + count][k];
    }

    /** Reads up to maxCount bytes, offset positions behind the tail, into dest (if any); the
        tail moves only for offset 0 and without peek. */
    method Get(offset: nat, dest: array?<byte>, maxCount: nat, peek: bool) returns (count: nat)
      requires Valid()
      requires dest != null ==> dest != buf && dest.Length >= maxCount
      modifies this`tail
      modifies if dest == null then {} else {dest}
      ensures Valid()
      ensures count == Min(maxCount, Max(old(Model()).size - offset, 0))
      ensures Model() == if peek || offset != 0 then old(Model()) else old(Model()).Drop(count)
      ensures dest != null ==>
        && dest[count..] == old(dest[count..])
        && (count > 0 ==> dest[..count] == old(Model()).Contents()[offset..offset + count])
    {
      ghost var before := Model();
      var size := GetSize();
      size := if size > offset then size - offset else 0;
      count := Min(size, maxCount);
      if count > 0 {
        var nextTail := Advance(tail, offset, buf.Length);
        if dest != null {
          CopyOut(nextTail, dest, count, offset);
          SliceOfPrefix(before.view, before.size, offset, offset + count);
        }
        if !peek && offset == 0 {
          MoveTail(count);
        }
      }
    }

    method MoveTail(n: nat)
      requires Valid() && n <= Model().size
      modifies this`tail
      ensures Valid() && Model() == old(Model()).Drop(n)
    {
      DroppedView(Model(), buf[..], n);
      tail := Advance(tail, n, buf.Length);
    }
  }

  /** What adding does to the markers: only the head moves, and only for offset 0; the front is never
      behind it, nor behind the place where bytes were put ahead. */
  lemma AddMarkers(r: Ring, offset: nat, data: Option<seq<byte>>, count: nat)
    requires r.Ok() && (data.Some? ==> count <= |data.value|)
    ensures var q := r.Add(offset, data, count); var n := r.Fits(offset, count);
      && q.Ok() && q.tail == r.tail && q.mid == r.mid && |q.view| == |r.view|
      && n == Min(count, Max(|r.view| - 1 - r.size - offset, 0))
      && q.size == r.size + (if offset == 0 then n else 0)
      && q.front == if n == 0 then r.front else Max(r.front, if offset == 0 then q.size else r.size + offset)
  {}

  lemma AdvanceZero(position: nat, length: nat)
    requires position < length
    ensures Advance(position, 0, length) == position
  {}

  lemma DistanceOf(length: nat, tail: nat, k: nat)
    requires tail < length && k < length
    ensures Advance(tail, k, length) < length && Distance(length, tail, Advance(tail, k, length)) == k
  {}

  /** Moving the mid marker on, seen from the tail. */
  lemma MarkerMoves(length: nat, tail: nat, mid: nat, head: nat, n: nat)
    requires tail < length && mid < length && head < length && n <= Distance(length, mid, head)
    ensures var m, s := Distance(length, tail, mid), Distance(length, tail, head);
      && Distance(length, mid, head) == (if m <= s then s - m else s + length - m)
      && Advance(mid, n, length) < length
      && Distance(length, tail, Advance(mid, n, length)) == (if m <= s then m + n else Advance(m, n, length))
  {}

  lemma SliceOfPrefix(s: seq<byte>, n: nat, i: nat, j: nat)
    requires i <= j <= n <= |s|
    ensures s[..n][i..j] == s[i..j]
  {}

  /** A marker moved on twice, seen from where it started. */
  lemma Placed(start: nat, first: nat, second: nat, length: nat)
    requires start < length && first + second < length
    ensures var p := Advance(Advance(start, first, length), second, length);
      p == Advance(start, first + second, length) && Distance(length, start, p) == first + second
  {}

  /** What a wrapped copy into the array means for the bytes seen from the tail. */
  lemma CopiedView(view: seq<byte>, tail: nat, a: seq<byte>, at: nat, data: seq<byte>, n: nat, from: nat)
    requires |a| == |view| && tail < |a| && at < |a| && n <= |data|
    requires from + n < |a| && at == Advance(tail, from, |a|)
    requires forall k :: 0 <= k < |a| ==>
      a[k] == (if at <= k < at + n then data[k - at]
               else if k < at + n - |a| then data[k + |a| - at]
               else view[if k >= tail then k - tail else k - tail + |a|])
    ensures a[tail..] + a[..tail] == view[..from] + data[..n] + view[from + n..]
  {}

  /** Moving the tail by n rotates what is seen from it. */
  lemma DroppedView(r: Ring, a: seq<byte>, n: nat)
    requires r.Ok() && n <= r.size && |a| == |r.view| && r.view == a[r.tail..] + a[..r.tail]
    ensures var t := Advance(r.tail, n, |a|);
      a[t..] + a[..t] == r.view[n..] + r.view[..n]
  {}
}
