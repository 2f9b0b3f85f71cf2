/** Turning an ICMP echo request into a reply in place, checksum included
    (prvProcessICMPEchoRequest in FreeRTOS_IP.c). */
module EchoReply {
  import opened Common
  import opened Checksum

  const ECHO_REQUEST := 8
  const ECHO_REPLY := 0

  // The frame has a 20-byte IP header: addresses from 26 on, the ICMP message from 34 on.

  /** The checksum field as the machine loads it. */
  function Field(frame: seq<byte>): uint16
    requires 42 <= |frame|
  {
    Load16(frame, 36)
  }

  /** The new checksum: 0x0800 more in network order, and one for the carry. */
  function Updated(checksum: uint16): uint16 {
    (checksum + Swap(256 * ECHO_REQUEST) + if checksum >= Swap(0xffff - 256 * ECHO_REQUEST) then 1 else 0) % 65536
  }

  /** The reply to a request: the type is cleared, the checksum follows, and the peer's address
      becomes the destination. */
  function Replied(frame: seq<byte>, local: seq<byte>): seq<byte>
    requires 42 <= |frame| && |local| == 4
  {
    frame[..26] + local + frame[26..30] + [ECHO_REPLY, frame[35]]
    + [Updated(Field(frame)) % 256, Updated(Field(frame)) / 256] + frame[38..]
  }

  /** The peer's address becomes the destination, and the local one the source. */
  method SwapAddresses(buf: array<byte>, local: seq<byte>)
    requires 42 <= buf.Length && |local| == 4
    modifies buf
    ensures forall k :: 26 <= k < 30 ==> buf[k] == local[k - 26]
    ensures forall k :: 30 <= k < 34 ==> buf[k] == old(buf[k - 4])
    ensures forall k :: 0 <= k < 26 || 34 <= k < buf.Length ==> buf[k] == old(buf[k])
  {
    forall k | 0 <= k < 4 {
      buf[30 + k] := buf[26 + k];
    }
    forall k | 0 <= k < 4 {
      buf[26 + k] := local[k];
    }
  }

  /** The reply, byte by byte. */
  lemma RepliedAt(frame: seq<byte>, local: seq<byte>, k: nat)
    requires 42 <= |frame| && |local| == 4 && k < |frame|
    ensures |Replied(frame, local)| == |frame|
    ensures Replied(frame, local)[k] ==
      if 26 <= k < 30 then local[k - 26]
      else if 30 <= k < 34 then frame[k - 4]
      else if k == 34 then ECHO_REPLY
      else if k == 36 then Updated(Field(frame)) % 256
      else if k == 37 then Updated(Field(frame)) / 256
      else frame[k]
  {}

  method ProcessEchoRequest(buf: array<byte>, local: seq<byte>)
    requires 42 <= buf.Length && |local| == 4
    modifies buf
    ensures buf[..] == Replied(old(buf[..]), local)
  {
    hide Replied;
    ghost var frame := buf[..];
    buf[34] := ECHO_REPLY;
    SwapAddresses(buf, local);
    var checksum: uint16 := Word(buf[37], buf[36]);
    if checksum >= Swap(0xffff - 256 * ECHO_REQUEST) {
      checksum := (checksum + Swap(256 * ECHO_REQUEST) + 1) % 65536;
    } else {
      checksum := (checksum + Swap(256 * ECHO_REQUEST)) % 65536;
    }
    assert checksum == Updated(Field(frame));
    buf[36], buf[37] := checksum % 256, checksum / 256;
    RepliedAt(frame, local, 0);
    forall k | 0 <= k < |frame| ensures buf[k] == Replied(frame, local)[k] {
      RepliedAt(frame, local, k);
    }
  }

  /** The ICMP message of a frame. */
  function Message(frame: seq<byte>): seq<byte>
    requires 42 <= |frame|
  {
    frame[34..]
  }

  lemma UpdatedIsEightMore(checksum: uint16)
    ensures Updated(checksum) % 65535 == (checksum + ECHO_REQUEST) % 65535
  {
    assert Swap(256 * ECHO_REQUEST) == 8 && Swap(0xffff - 256 * ECHO_REQUEST) == 0xfff7;
  }

  /** The one's complement sum of the message is what it was, whether that was right or not. */
  lemma SumKept(frame: seq<byte>, local: seq<byte>)
    requires 42 <= |frame| && |local| == 4 && frame[34] == ECHO_REQUEST
    ensures |Replied(frame, local)| == |frame|
    ensures WordSum(Message(Replied(frame, local))) % 65535 == WordSum(Message(frame)) % 65535
  {
    hide WordSum, Updated;
    var u := Updated(Field(frame));
    MessageChanges(frame, local, u);
    HeadSum(Message(frame), frame[34], frame[35], frame[36], frame[37]);
    HeadSum(Message(Replied(frame, local)), ECHO_REPLY, frame[35], u % 256, u / 256);
    HeadKept(frame[35], frame[36], frame[37], WordSum(Message(frame)[4..]));
  }

  lemma MessageChanges(frame: seq<byte>, local: seq<byte>, u: uint16)
    requires 42 <= |frame| && |local| == 4 && u == Updated(Field(frame))
    ensures |Replied(frame, local)| == |frame|
    ensures var m, m' := Message(frame), Message(Replied(frame, local));
      m'[..4] == [ECHO_REPLY, frame[35], u % 256, u / 256] && m'[4..] == m[4..]
  {}

  lemma HeadSum(m: seq<byte>, a: byte, b: byte, c: byte, d: byte)
    requires 4 <= |m| && m[..4] == [a, b, c, d]
    ensures WordSum(m) == Word(a, b) + Word(c, d) + WordSum(m[4..])
  {
    hide WordSum;
    WordSumSplit(m, 4);
    FourBytes(a, b, c, d);
  }

  lemma SwappedWord(high: byte, low: byte)
    ensures Swap(Word(high, low)) == Word(low, high)
    ensures Word(high, low) % 256 == low && Word(high, low) / 256 == high
  {}

  lemma HeadKept(code: byte, low: byte, high: byte, rest: nat)
    ensures var u := Updated(Word(high, low));
      (Word(ECHO_REPLY, code) + Word(u % 256, u / 256) + rest) % 65535
      == (Word(ECHO_REQUEST, code) + Word(low, high) + rest) % 65535
  {
    hide Updated, Swap;
    var x: uint16 := Word(high, low);
    var u := Updated(x);
    UpdatedIsEightMore(x);
    SwapMod(x);
    SwapMod(u);
    TimesMod(u, x + ECHO_REQUEST);
    AddMod(Swap(x), 256 * x, 256 * ECHO_REQUEST);
    SwappedWord(high, low);
    SwappedWord(u / 256, u % 256);
    AddMod(Swap(u), Swap(x) + 256 * ECHO_REQUEST, Word(0, code) + rest);
  }

  /** A request whose checksum is right is answered with a reply whose checksum is right: it folds
      to 0xffff unless the whole reply is zero. A wrong checksum stays wrong. */
  lemma ReplyExact(frame: seq<byte>, local: seq<byte>)
    requires 42 <= |frame| && |local| == 4 && frame[34] == ECHO_REQUEST
    ensures |Replied(frame, local)| == |frame|
    ensures var sum := WordSum(Message(Replied(frame, local)));
      WordSum(Message(frame)) % 65535 == 0 <==> Ones(sum) == 0xffff || sum == 0
  {
    hide WordSum, Updated;
    SumKept(frame, local);
    OnesMeans(WordSum(Message(Replied(frame, local))), 65535);
  }
}
