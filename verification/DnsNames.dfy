/** Host names in DNS messages, section 3.1 of RFC 1035: the encoders of FreeRTOS+TCP
    (FreeRTOS_DNS.c), which works in place, and of lwIP (dns.c), which copies; the decoder and
    the two functions that skip a name. */
module DnsNames {
  import opened Common

  const DOT: byte := 46
  const OFFSET: byte := 0xc0

  /** A name as a C string holds it. */
  predicate CString(name: seq<byte>) {
    forall k :: 0 <= k < |name| ==> name[k] != 0
  }

  /** Where the label that starts at i ends: at the next dot, or with the name. */
  function LabelEnd(name: seq<byte>, i: nat): (e: nat)
    requires i <= |name|
    ensures i <= e <= |name| && (e < |name| ==> name[e] == DOT)
    ensures forall k :: i <= k < e ==> name[k] != DOT
    decreases |name| - i
  {
    if i == |name| || name[i] == DOT then i else LabelEnd(name, i + 1)
  }

  lemma LabelStep(name: seq<byte>, i: nat)
    requires i <= |name|
    ensures i < |name| && name[i] != DOT ==> LabelEnd(name, i) == LabelEnd(name, i + 1)
    ensures !(i < |name| && name[i] != DOT) ==> LabelEnd(name, i) == i
  {}

  /** Byte k of the encoded name: in front, and in place of every dot, the length of the label that
      follows; a zero at the end. */
  function WireByte(name: seq<byte>, k: nat): byte
    requires k <= |name| + 1
  {
    if k == |name| + 1 then 0
    else if k == 0 || name[k - 1] == DOT then (LabelEnd(name, k) - k) % 256
    else name[k - 1]
  }

  function Wire(name: seq<byte>): (r: seq<byte>)
    ensures |r| == |name| + 2 && forall k :: 0 <= k < |r| ==> r[k] == WireByte(name, k)
  {
    seq(|name| + 2, k requires 0 <= k < |name| + 2 => WireByte(name, k))
  }

  // ---- The encoders ---------------------------------------------------------------------

  /** Everything outside [start, end) is as it was. */
  predicate Outside(before: seq<byte>, after: seq<byte>, start: nat, end: nat) {
    |after| == |before| && forall k :: 0 <= k < |before| && !(start <= k < end) ==> after[k] == before[k]
  }

  /** Walks the copied string from a label to the next dot or the end. */
  method FindDot(buf: array<byte>, at: nat, i: nat, ghost name: seq<byte>) returns (e: nat)
    requires i <= |name| && at + |name| < buf.Length && CString(name)
    requires forall k :: i <= k < |name| ==> buf[at + k] == name[k]
    requires buf[at + |name|] == 0
    ensures e == LabelEnd(name, i)
  {
    e := i;
    while buf[at + e] != 0 && buf[at + e] != DOT
      invariant i <= e <= |name| && LabelEnd(name, e) == LabelEnd(name, i)
      decreases |name| - e
    {
      assert buf[at + e] == name[e];
      e := e + 1;
    }
    assert e < |name| ==> buf[at + e] == name[e];
  }

  /** prvCreateDNSMessage: the name is copied behind a gap, and then the dots become lengths. */
  method EncodeInPlace(buf: array<byte>, start: nat, name: seq<byte>) returns (end: nat)
    requires CString(name) && start + |name| + 2 <= buf.Length
    modifies buf
    ensures end == start + |name| + 2 && buf[start..end] == Wire(name)
    ensures Outside(old(buf[..]), buf[..], start, end)
  {
    hide LabelEnd, WireByte, Wire;
    var first := start + 1;
    forall k | 0 <= k < |name| {
      buf[first + k] := name[k];
    }
    buf[first + |name|] := 0;
    var i, done := 0, false;
    while !done
      invariant i <= |name| + 1 && (done <==> i == |name| + 1)
      invariant Outside(old(buf[..]), buf[..], start, start + |name| + 2)
      invariant forall k :: 0 <= k < i ==> buf[start + k] == WireByte(name, k)
      invariant forall k :: i <= k < |name| ==> buf[first + k] == name[k]
      invariant buf[first + |name|] == 0
      invariant 0 < i <= |name| ==> name[i - 1] == DOT
      decreases |name| + 1 - i
    {
      var e := FindDot(buf, first, i, name);
      buf[start + i] := (e - i) % 256;
      LabelBytes(name, i, buf[..], start);
      done := e == |name|;
      i := e + 1;
    }
    end := start + |name| + 2;
    IsWire(buf[..], start, name);
  }

  lemma IsWire(b: seq<byte>, start: nat, name: seq<byte>)
    requires start + |name| + 2 <= |b|
    requires forall k :: 0 <= k <= |name| ==> b[start + k] == WireByte(name, k)
    requires b[start + 1 + |name|] == 0
    ensures b[start..start + |name| + 2] == Wire(name)
  {}

  /** A label with its length in front of it. */
  lemma LabelBytes(name: seq<byte>, i: nat, buf: seq<byte>, start: nat)
    requires i <= |name| && start + |name| + 1 < |buf| && (0 < i ==> name[i - 1] == DOT)
    requires buf[start + i] == (LabelEnd(name, i) - i) % 256
    requires forall k :: i <= k < LabelEnd(name, i) ==> buf[start + 1 + k] == name[k]
    ensures forall k :: i <= k <= LabelEnd(name, i) ==> buf[start + k] == WireByte(name, k)
  {}

  /** The inner loop of dns_send: one label is copied to its place, and counted in eight bits. */
  method CopyLabel(out: array<byte>, at: nat, i: nat, name: seq<byte>) returns (j: nat, n: byte)
    requires i <= |name| && at + |name| < out.Length
    modifies out
    ensures j == LabelEnd(name, i) && n == (j - i) % 256
    ensures Outside(old(out[..]), out[..], at + i, at + j)
    ensures forall k :: i <= k < j ==> out[at + k] == name[k]
  {
    hide LabelEnd;
    j, n := i, 0;
    while j < |name| && name[j] != DOT
      invariant i <= j <= |name| && LabelEnd(name, j) == LabelEnd(name, i) && n == (j - i) % 256
      invariant Outside(old(out[..]), out[..], at + i, at + j)
      invariant forall k :: i <= k < j ==> out[at + k] == name[k]
    {
      LabelStep(name, j);
      out[at + j] := name[j];
      n, j := (n + 1) % 256, j + 1;
    }
    LabelStep(name, j);
  }

  /** The encoder of dns_send: labels are copied behind a gap for their length. */
  method EncodeCopying(out: array<byte>, start: nat, name: seq<byte>) returns (end: nat)
    requires start + |name| + 2 <= out.Length
    modifies out
    ensures end == start + |name| + 2 && out[start..end] == Wire(name)
    ensures Outside(old(out[..]), out[..], start, end)
  {
    var i, done := 0, false;
    while !done
      invariant i <= |name| + 1 && (done <==> i == |name| + 1)
      invariant Outside(old(out[..]), out[..], start, start + |name| + 2)
      invariant forall k :: 0 <= k < i ==> out[start + k] == WireByte(name, k)
      invariant 0 < i <= |name| ==> name[i - 1] == DOT
      decreases |name| + 1 - i
    {
      var j, n := CopyLabel(out, start + 1, i, name);
      out[start + i] := n;
      LabelBytes(name, i, out[..], start);
      done := j == |name|;
      i := j + 1;
    }
    end := start + i;
    out[end] := 0;
    end := end + 1;
  }

  // ---- Reading a name back --------------------------------------------------------------

  /** The text of a name field and the position behind it. */
  datatype Field = Field(text: seq<byte>, end: nat)

  /** The meaning of the labels from position p on: their bytes with dots between them, up to and
      including the zero length; nothing if they lead outside the message. */
  function Decode(b: seq<byte>, p: nat): (f: Option<Field>)
    ensures f.Some? ==> p < f.value.end <= |b|
    decreases |b| - p
  {
    if p >= |b| then None
    else if b[p] == 0 then Some(Field([], p + 1))
    else
      var next := p + 1 + b[p];
      match Decode(b, next)
      case None => None
      case Some(rest) => Some(Field(b[p + 1..next] + Tail(b[next], rest.text), rest.end))
  }

  function Tail(length: byte, text: seq<byte>): seq<byte> {
    if length == 0 then [] else [DOT] + text
  }

  /** A whole field: the labels, or a two-byte offset to a name elsewhere. */
  function NameEnd(b: seq<byte>, p: nat): Option<nat> {
    if p < |b| && b[p] >= OFFSET then Some(p + 2)
    else match Decode(b, p)
      case None => None
      case Some(f) => Some(f.end)
  }

  /** One label, and what follows it. */
  lemma DecodeLabel(b: seq<byte>, p: nat, next: nat)
    requires p < |b| && b[p] != 0 && next == p + 1 + b[p]
    ensures Decode(b, p).Some? <==> Decode(b, next).Some?
    ensures Decode(b, next).Some? ==> next < |b|
    ensures Decode(b, p).Some? ==> Decode(b, p).value.end == Decode(b, next).value.end
    ensures Decode(b, p).Some? ==>
      Decode(b, p).value.text == b[p + 1..next] + Tail(b[next], Decode(b, next).value.text)
  {}

  lemma DecodeZero(b: seq<byte>, p: nat)
    requires p < |b| && b[p] == 0
    ensures Decode(b, p) == Some(Field([], p + 1))
  {}

  /** As much of the text as a buffer with room for `limit` characters takes behind acc. */
  function Appended(acc: seq<byte>, text: seq<byte>, limit: nat): seq<byte> {
    acc + text[..Min(|text|, Max(limit - |acc|, 0))]
  }

  lemma AppendedTwice(acc: seq<byte>, s: seq<byte>, t: seq<byte>, limit: nat)
    ensures Appended(Appended(acc, s, limit), t, limit) == Appended(acc, s + t, limit)
  {}

  /** What a reader that holds acc adds for a field with this text. */
  function Joined(acc: seq<byte>, length: byte, text: seq<byte>): seq<byte> {
    if length == 0 then [] else if acc == [] then text else [DOT] + text
  }

  /** One label of prvReadNameField: the dot and the bytes of the label, as far as there is room. */
  lemma LabelRead(b: seq<byte>, p: nat, acc: seq<byte>, limit: nat)
    requires p < |b| && b[p] != 0 && Decode(b, p).Some?
    ensures var next := p + 1 + b[p];
      && next < |b| && Decode(b, next).Some? && Decode(b, next).value.end == Decode(b, p).value.end
      && var dotted := if acc == [] then acc else Appended(acc, [DOT], limit);
      var grown := Appended(dotted, b[p + 1..next], limit);
      Appended(grown, Joined(grown, b[next], Decode(b, next).value.text), limit)
        == Appended(acc, Joined(acc, b[p], Decode(b, p).value.text), limit)
  {
    hide Appended;
    var next := p + 1 + b[p];
    var part, rest := b[p + 1..next], Decode(b, next).value.text;
    var dotted := if acc == [] then acc else Appended(acc, [DOT], limit);
    var grown := Appended(dotted, part, limit);
    var tail := Tail(b[next], rest);
    assert Appended(grown, Joined(grown, b[next], rest), limit) == Appended(grown, tail, limit) by {
      GrownJoined(dotted, part, b[next], rest, limit);
    }
    AppendedTwice(dotted, part, tail, limit);
    if acc != [] {
      AppendedTwice(acc, [DOT], part + tail, limit);
    }
  }

  /** After a label there is text to put a dot behind, unless the buffer takes no character. */
  lemma GrownJoined(dotted: seq<byte>, part: seq<byte>, length: byte, rest: seq<byte>, limit: nat)
    requires part != []
    ensures var grown := Appended(dotted, part, limit);
      Appended(grown, Joined(grown, length, rest), limit) == Appended(grown, Tail(length, rest), limit)
  {}

  /** The dot between two labels, if there is room. */
  method ReadDot(out: array<byte>, n: nat, limit: nat) returns (m: nat)
    requires n <= limit < out.Length
    modifies out
    ensures n <= m <= limit
    ensures out[..m] == old(if out[..n] == [] then out[..n] else Appended(out[..n], [DOT], limit))
    ensures forall k :: m <= k < out.Length ==> out[k] == old(out[k])
  {
    m := n;
    if n != 0 && n < limit {
      out[n] := DOT;
      m := n + 1;
    }
    assert out[..n] == old(out[..n]);
  }

  /** The inner loop of prvReadNameField. */
  method ReadLabel(b: array<byte>, at: nat, count: nat, out: array<byte>, n: nat, limit: nat) returns (m: nat)
    requires at + count <= b.Length && n <= limit <= out.Length && b != out
    modifies out
    ensures n <= m <= limit && out[..m] == Appended(old(out[..n]), old(b[..])[at..at + count], limit)
    ensures forall k :: m <= k < out.Length ==> out[k] == old(out[k])
  {
    m := n;
    for k := 0 to count
      invariant n <= m <= limit && m == n + Min(k, limit - n)
      invariant forall j :: 0 <= j < n ==> out[j] == old(out[j])
      invariant forall j :: n <= j < m ==> out[j] == b[at + (j - n)]
      invariant forall j :: m <= j < out.Length ==> out[j] == old(out[j])
    {
      if m < limit {
        out[m] := b[at + k];
        m := m + 1;
      }
    }
  }

  /** prvReadNameField: copies at most len - 1 characters, without a terminator, and returns the
      position behind the field. An offset is not followed. */
  method ReadNameField(b: array<byte>, p: nat, out: array<byte>, len: nat) returns (q: nat, n: nat)
    requires 0 < len <= out.Length && b != out && NameEnd(b[..], p).Some? && p < b.Length
    modifies out
    ensures NameEnd(b[..], p) == Some(q) && n < len
    ensures forall k :: n <= k < out.Length ==> out[k] == old(out[k])
    ensures b[p] >= OFFSET ==> n == 0
    ensures b[p] < OFFSET ==> out[..n] == Appended([], Decode(b[..], p).value.text, len - 1)
  {
    hide Appended, Joined, Decode;
    q, n := p, 0;
    if b[p] >= OFFSET {
      return q + 2, 0;
    }
    ghost var bytes := b[..];
    ReadStarts(bytes, p, len - 1);
    while b[q] != 0
      invariant n < len && q < b.Length && b[..] == bytes && Decode(bytes, q).Some?
      invariant Decode(bytes, q).value.end == Decode(bytes, p).value.end
      invariant Appended(out[..n], Joined(out[..n], bytes[q], Decode(bytes, q).value.text), len - 1)
             == Appended([], Decode(bytes, p).value.text, len - 1)
      invariant forall k :: n <= k < out.Length ==> out[k] == old(out[k])
      decreases b.Length - q
    {
      LabelRead(bytes, q, out[..n], len - 1);
      n := ReadDot(out, n, len - 1);
      n := ReadLabel(b, q + 1, b[q], out, n, len - 1);
      q := q + 1 + b[q];
    }
    ReadEnds(bytes, q, out[..n], len - 1);
    q := q + 1;
  }

  lemma ReadStarts(b: seq<byte>, p: nat, limit: nat)
    requires Decode(b, p).Some?
    ensures p < |b| && Joined([], b[p], Decode(b, p).value.text) == Decode(b, p).value.text
  {}

  lemma ReadEnds(b: seq<byte>, q: nat, acc: seq<byte>, limit: nat)
    requires q < |b| && b[q] == 0
    ensures Decode(b, q) == Some(Field([], q + 1)) && Appended(acc, Joined(acc, 0, []), limit) == acc
  {}

  /** prvSkipNameField. */
  method SkipNameField(b: array<byte>, p: nat) returns (q: nat)
    requires NameEnd(b[..], p).Some? && p < b.Length
    ensures NameEnd(b[..], p) == Some(q)
  {
    hide Decode;
    q := p;
    if b[q] >= OFFSET {
      return q + 2;
    }
    ghost var bytes := b[..];
    while b[q] != 0
      invariant q < b.Length && Decode(bytes, q).Some?
      invariant Decode(bytes, q).value.end == Decode(bytes, p).value.end
      decreases b.Length - q
    {
      DecodeLabel(bytes, q, q + b[q] + 1);
      q := q + b[q] + 1;
    }
    DecodeZero(bytes, q);
    q := q + 1;
  }

  /** dns_parse_name: looks for an offset at every label, and reads a label before it looks for the
      zero length. */
  function ParseEnd(b: seq<byte>, p: nat): Option<nat>
    decreases |b| - p
  {
    if p >= |b| then None
    else if b[p] >= OFFSET then Some(p + 2)
    else
      var next := p + 1 + b[p];
      if next >= |b| then None
      else if b[next] == 0 then Some(next + 1)
      else ParseEnd(b, next)
  }

  method ParseName(b: array<byte>, p: nat) returns (q: nat)
    requires ParseEnd(b[..], p).Some?
    ensures ParseEnd(b[..], p) == Some(q)
  {
    q := p;
    while true
      invariant ParseEnd(b[..], q) == ParseEnd(b[..], p)
      decreases b.Length - q
    {
      var n := b[q];
      q := q + 1;
      if n >= OFFSET {
        break;
      }
      q := q + n;
      if b[q] == 0 {
        break;
      }
    }
    q := q + 1;
  }

  /** No label of the field is an offset. */
  predicate Plain(b: seq<byte>, p: nat)
    decreases |b| - p
  {
    p < |b| && b[p] < OFFSET && (b[p] == 0 || Plain(b, p + 1 + b[p]))
  }

  lemma {:induction false} ParseFollows(b: seq<byte>, p: nat)
    requires Decode(b, p).Some? && b[p] != 0
    decreases |b| - p
    ensures ParseEnd(b, p) == Some(Decode(b, p).value.end) <==> Plain(b, p)
  {
    var next := p + 1 + b[p];
    if b[p] >= OFFSET {
      assert Decode(b, p).value.end == Decode(b, next).value.end > p + 2;
    } else if b[next] != 0 {
      ParseFollows(b, next);
    }
  }

  /** The two functions that skip a name stop at the same byte for the names that start with an
      offset or consist of labels only, but not for the root name and not for a name that ends in
      an offset. */
  lemma SkippersAgree(b: seq<byte>, p: nat)
    requires p < |b| && NameEnd(b, p).Some?
    ensures ParseEnd(b, p) == NameEnd(b, p) <==> b[p] >= OFFSET || (b[p] != 0 && Plain(b, p))
  {
    if b[p] == 0 {
      ParseBeyond(b, p);
    } else if b[p] < OFFSET {
      ParseFollows(b, p);
    }
  }

  lemma {:induction false} ParseBeyond(b: seq<byte>, p: nat)
    ensures ParseEnd(b, p).Some? ==> ParseEnd(b, p).value >= p + 2
    decreases |b| - p
  {
    if p < |b| && b[p] < OFFSET {
      ParseBeyond(b, p + 1 + b[p]);
    }
  }

  // ---- Encoding and reading back --------------------------------------------------------

  /** All labels from i on have 1 to limit bytes. */
  predicate Labels(name: seq<byte>, i: nat, limit: nat)
    requires i <= |name|
    decreases |name| - i
  {
    var e := LabelEnd(name, i);
    1 <= e - i <= limit && (e == |name| || Labels(name, e + 1, limit))
  }

  /** The message holds the encoded name at position at. */
  predicate Holds(b: seq<byte>, at: nat, name: seq<byte>) {
    at + |name| + 2 <= |b| && b[at..at + |name| + 2] == Wire(name)
  }

  /** From label i on the rest of the name is read, up to the end of the field. */
  predicate Reads(b: seq<byte>, at: nat, name: seq<byte>, i: nat)
    requires i <= |name|
  {
    Decode(b, at + i) == Some(Field(name[i..], at + |name| + 2))
  }

  /** A label lies in the message, whole or not, behind its length. */
  predicate Lies(b: seq<byte>, at: nat, name: seq<byte>, i: nat)
    requires i <= |name|
  {
    && at + |name| + 2 <= |b| && b[at + |name| + 1] == 0
    && b[at + i] == (LabelEnd(name, i) - i) % 256
    && forall k :: i <= k < LabelEnd(name, i) ==> b[at + 1 + k] == name[k]
  }

  lemma LabelLies(b: seq<byte>, at: nat, name: seq<byte>, i: nat)
    requires Holds(b, at, name) && i <= |name| && (0 < i ==> name[i - 1] == DOT)
    ensures Lies(b, at, name, i)
  {
    var w := b[at..at + |name| + 2];
    assert forall k :: 0 <= k < |name| + 2 ==> b[at + k] == w[k] == WireByte(name, k);
  }

  /** What is read from label i on is the rest of the name, to its end, exactly if every label fits
      a length byte and none is empty. */
  lemma {:induction false} LabelsRead(b: seq<byte>, at: nat, name: seq<byte>, i: nat)
    requires CString(name) && Holds(b, at, name) && i <= |name| && (0 < i ==> name[i - 1] == DOT)
    ensures Reads(b, at, name, i) <==> Labels(name, i, 255)
    decreases |name| - i
  {
    hide Holds, Reads, Lies;
    LabelLies(b, at, name, i);
    var e := LabelEnd(name, i);
    if e == i {
      EmptyLabel(b, at, name, i);
    } else if 256 <= e - i {
      TooLong(b, at, name, i);
    } else if e == |name| {
      LastLabel(b, at, name, i);
    } else {
      LabelsRead(b, at, name, e + 1);
      InnerLabel(b, at, name, i);
    }
  }

  lemma EmptyLabel(b: seq<byte>, at: nat, name: seq<byte>, i: nat)
    requires i <= |name| && Lies(b, at, name, i) && LabelEnd(name, i) == i
    ensures !Reads(b, at, name, i)
  {}

  lemma LastLabel(b: seq<byte>, at: nat, name: seq<byte>, i: nat)
    requires i < |name| <= i + 255 && Lies(b, at, name, i) && LabelEnd(name, i) == |name|
    ensures Reads(b, at, name, i)
  {
    hide Decode, LabelEnd;
    var last := at + |name| + 1;
    assert b[at + i + 1..last] == name[i..];
    DecodeZero(b, last);
    DecodeLabel(b, at + i, last);
    assert name[i..] + Tail(0, []) == name[i..];
  }

  lemma InnerLabel(b: seq<byte>, at: nat, name: seq<byte>, i: nat)
    requires i < |name| && Lies(b, at, name, i) && i < LabelEnd(name, i) <= i + 255
    requires LabelEnd(name, i) < |name|
    ensures Reads(b, at, name, i) <==> Reads(b, at, name, LabelEnd(name, i) + 1)
  {
    hide LabelEnd, Decode, Lies, Tail;
    var e := LabelEnd(name, i);
    LabelText(b, at, name, i);
    FieldTail(name, i, e, Decode(b, at + i), Decode(b, at + e + 1), b[at + e + 1], at + |name| + 2);
  }

  /** A label that lies in the message, as it is decoded. */
  lemma LabelText(b: seq<byte>, at: nat, name: seq<byte>, i: nat)
    requires i < |name| && Lies(b, at, name, i) && i < LabelEnd(name, i) <= i + 255
    requires LabelEnd(name, i) < |name|
    ensures var e := LabelEnd(name, i);
      && at + e + 1 < |b|
      && var f, g := Decode(b, at + i), Decode(b, at + e + 1);
      match g
      case None => f.None?
      case Some(rest) =>
        && f == Some(Field(name[i..e] + Tail(b[at + e + 1], rest.text), rest.end))
        && (b[at + e + 1] == 0 ==> rest.end == at + e + 2)
  {
    hide LabelEnd, Decode, Tail;
    var next := at + LabelEnd(name, i) + 1;
    assert b[at + i + 1..next] == name[i..LabelEnd(name, i)];
    DecodeLabel(b, at + i, next);
    if b[next] == 0 {
      DecodeZero(b, next);
    }
  }

  lemma FieldTail(name: seq<byte>, i: nat, e: nat, f: Option<Field>, g: Option<Field>, length: byte, end: nat)
    requires i <= e < |name| && name[e] == DOT && (f.Some? <==> g.Some?)
    requires g.Some? && length == 0 ==> g.value.end != end
    requires f.Some? ==> f.value == Field(name[i..e] + Tail(length, g.value.text), g.value.end)
    ensures f == Some(Field(name[i..], end)) <==> g == Some(Field(name[e + 1..], end))
  {
    hide Tail;
    if f.Some? && length != 0 {
      NameTail(name, i, e, length, g.value.text);
    }
  }

  lemma NameTail(name: seq<byte>, i: nat, e: nat, length: byte, text: seq<byte>)
    requires i <= e < |name| && name[e] == DOT
    ensures length != 0 ==> (name[i..e] + Tail(length, text) == name[i..] <==> text == name[e + 1..])
  {
    assert name[i..] == name[i..e] + ([DOT] + name[e + 1..]);
    SameTail(name[i..e], text, name[e + 1..]);
  }

  lemma SameTail(part: seq<byte>, s: seq<byte>, t: seq<byte>)
    ensures part + ([DOT] + s) == part + ([DOT] + t) <==> s == t
  {
    assert (part + ([DOT] + s))[|part| + 1..] == s;
    assert (part + ([DOT] + t))[|part| + 1..] == t;
  }

  /** The length of a label of more than 255 bytes does not fit; the reader puts a dot into it. */
  lemma TooLong(b: seq<byte>, at: nat, name: seq<byte>, i: nat)
    requires CString(name) && i <= |name| && Lies(b, at, name, i) && LabelEnd(name, i) >= i + 256
    ensures !Reads(b, at, name, i)
  {
    hide Decode, LabelEnd;
    var n := b[at + i];
    var next := at + i + 1 + n;
    assert b[next] == name[i + n];
    if n == 0 {
      DecodeZero(b, at + i);
    } else if Decode(b, at + i).Some? {
      DecodeLabel(b, at + i, next);
      var text := Decode(b, at + i).value.text;
      assert text[n] == DOT && name[i..][n] == name[i + n];
    }
  }

  /** A name survives the encoding and prvReadNameField exactly if its labels have 1 to 255 bytes
      and the first one is too short to look like an offset. The limit of 63 bytes of section 2.3.4
      of RFC 1035 is stronger. */
  lemma ReadExact(b: seq<byte>, at: nat, name: seq<byte>)
    requires CString(name) && Holds(b, at, name)
    ensures at + |name| + 2 <= |b|
    ensures b[at] < OFFSET && Decode(b, at) == Some(Field(name, at + |name| + 2))
      <==> Labels(name, 0, 255) && LabelEnd(name, 0) < 0xc0
  {
    hide Holds, Wire, Decode;
    LabelLies(b, at, name, 0);
    LabelsRead(b, at, name, 0);
    assert name[0..] == name;
  }

  /** For legal names the encoded form is read back in full, and skipped by all three functions. */
  lemma RoundTrip(b: seq<byte>, at: nat, name: seq<byte>)
    requires CString(name) && Holds(b, at, name) && Labels(name, 0, 63)
    ensures Decode(b, at) == Some(Field(name, at + |name| + 2))
    ensures NameEnd(b, at) == ParseEnd(b, at) == Some(at + |name| + 2)
  {
    hide Holds, Wire, Decode, ParseEnd;
    LabelsWider(name, 0);
    LabelLies(b, at, name, 0);
    ReadExact(b, at, name);
    HeldPlain(b, at, name, 0);
    SkippersAgree(b, at);
  }

  lemma {:induction false} LabelsWider(name: seq<byte>, i: nat)
    requires i <= |name| && Labels(name, i, 63)
    ensures Labels(name, i, 255)
    decreases |name| - i
  {
    if LabelEnd(name, i) < |name| {
      LabelsWider(name, LabelEnd(name, i) + 1);
    }
  }

  lemma {:induction false} HeldPlain(b: seq<byte>, at: nat, name: seq<byte>, i: nat)
    requires Holds(b, at, name) && i <= |name| && (0 < i ==> name[i - 1] == DOT) && Labels(name, i, 63)
    ensures Plain(b, at + i)
    decreases |name| - i
  {
    hide Holds, Wire;
    LabelLies(b, at, name, i);
    var e := LabelEnd(name, i);
    if e < |name| {
      HeldPlain(b, at, name, e + 1);
    } else {
      assert Plain(b, at + e + 1);
    }
  }

  // ---- The message ----------------------------------------------------------------------

  const HEADER_SIZE := 12
  const TAIL_SIZE := 4

  /** What FreeRTOS_gethostbyname reserves (FreeRTOS_DNS.c:508): the header, the name, two 16-bit
      fields and two bytes more. */
  function ReservedLength(name: seq<byte>): nat {
    HEADER_SIZE + |name| + 2 + 2 + 2
  }

  /** prvCreateDNSMessage: fills the reserved buffer exactly. The question is for a host address
      (type 1) of the Internet (class 1). */
  method CreateDNSMessage(buf: array<byte>, name: seq<byte>, header: seq<byte>) returns (length: nat)
    requires CString(name) && buf.Length == ReservedLength(name) && |header| == HEADER_SIZE
    modifies buf
    ensures length == buf.Length && buf[..] == header + Wire(name) + [0, 1, 0, 1]
  {
    forall k | 0 <= k < HEADER_SIZE {
      buf[k] := header[k];
    }
    var end := EncodeInPlace(buf, HEADER_SIZE, name);
    assert buf[..HEADER_SIZE] == header;
    buf[end], buf[end + 1], buf[end + 2], buf[end + 3] := 0, 1, 0, 1;
    assert buf[HEADER_SIZE..end] == Wire(name);
    length := end + TAIL_SIZE;
    assert buf[..] == buf[..HEADER_SIZE] + buf[HEADER_SIZE..end] + buf[end..];
  }
}
