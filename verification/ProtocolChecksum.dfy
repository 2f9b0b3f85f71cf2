/** Checksums of whole packets (FreeRTOS_IP.c): the UDP, TCP, ICMP and IGMP checksum of a frame. */
module ProtocolChecksum {
  import opened Common
  import opened Checksum

  const ICMP := 1
  const IGMP := 2
  const TCP := 6
  const UDP := 17

  const ETHERNET_HEADER := 14
  const MTU := 1500

  const CORRECT_CRC: uint16 := 0xffff
  const UNHANDLED_PROTOCOL: uint16 := 0x4321
  const INVALID_LENGTH: uint16 := 0x1234

  /** The frame holds its IP header, which has 20 bytes at least, and the checksum field of its
      protocol; if it claims a legal length, it has as many bytes. */
  predicate Frame(frame: seq<byte>) {
    && 34 <= |frame| && 20 <= HeaderLength(frame)
    && (Field(frame).Some? ==> Field(frame).value + 2 <= |frame|)
    && (LegalLength(frame) ==> ETHERNET_HEADER + TotalLength(frame) <= |frame|)
  }

  function TotalLength(frame: seq<byte>): uint16
    requires 34 <= |frame|
  {
    Word(frame[16], frame[17])
  }

  function HeaderLength(frame: seq<byte>): (n: nat)
    requires 34 <= |frame|
    ensures n % 4 == 0 && n <= 60
  {
    4 * (frame[14] % 16)
  }

  function Protocol(frame: seq<byte>): byte
    requires 34 <= |frame|
  {
    frame[23]
  }

  /** Where the checksum field of the protocol is, if the protocol is handled. */
  function Field(frame: seq<byte>): (at: Option<nat>)
    requires 34 <= |frame|
    ensures at.Some? ==> at.value % 2 == 0 && 16 <= at.value
  {
    var start := ETHERNET_HEADER + HeaderLength(frame);
    if Protocol(frame) == UDP then Some(start + 6)
    else if Protocol(frame) == TCP then Some(start + 16)
    else if Protocol(frame) == ICMP || Protocol(frame) == IGMP then Some(start + 2)
    else None
  }

  /** The length of what follows the IP header. */
  function Length(frame: seq<byte>): int
    requires 34 <= |frame|
  {
    TotalLength(frame) - HeaderLength(frame)
  }

  predicate LegalLength(frame: seq<byte>)
    requires 34 <= |frame|
  {
    8 <= Length(frame) <= MTU - HeaderLength(frame)
  }

  /** Where the standards put the checksum behind a 20-byte IP header: RFC 768, RFC 793,
      RFC 792 and RFC 2236. */
  lemma FieldOfStandard(frame: seq<byte>)
    requires 34 <= |frame| && HeaderLength(frame) == 20
    ensures frame[14] % 16 == 5
    ensures frame[23] == UDP ==> Field(frame) == Some(40)
    ensures frame[23] == TCP ==> Field(frame) == Some(50)
    ensures frame[23] == ICMP || frame[23] == IGMP ==> Field(frame) == Some(36)
    ensures Field(frame).None? ==> frame[23] !in {ICMP, IGMP, TCP, UDP}
  {}

  /** The bytes that are summed: with the two IP addresses for UDP and TCP. */
  function Covered(frame: seq<byte>): (r: (nat, nat))
    requires Frame(frame) && LegalLength(frame)
    ensures r.0 <= r.1 <= |frame| && r.0 % 2 == 0 && r.1 - r.0 <= MTU + 8
  {
    if Protocol(frame) <= IGMP then (ETHERNET_HEADER + HeaderLength(frame), ETHERNET_HEADER + TotalLength(frame))
    else (26, 34 + Length(frame))
  }

  /** The rest of the pseudo header of UDP and TCP. */
  function Seed(frame: seq<byte>): uint16
    requires Frame(frame) && LegalLength(frame)
  {
    if Protocol(frame) <= IGMP then 0 else Length(frame) + Protocol(frame)
  }

  function PacketSum(frame: seq<byte>): nat
    requires Frame(frame) && LegalLength(frame)
  {
    Seed(frame) + WordSum(frame[Covered(frame).0..Covered(frame).1])
  }

  /** With a 20-byte IP header, the sum is that of the pseudo header and the segment. */
  lemma PacketSumIsPseudo(frame: seq<byte>)
    requires Frame(frame) && LegalLength(frame) && HeaderLength(frame) == 20
    ensures frame[Covered(frame).0..Covered(frame).1]
      == (if Protocol(frame) <= IGMP then [] else frame[26..30] + frame[30..34]) + frame[34..34 + Length(frame)]
  {}

  /** The pseudo header of section 3.1 of RFC 793: both addresses, the protocol, and the length. */
  function PseudoHeader(frame: seq<byte>): seq<byte>
    requires Frame(frame) && LegalLength(frame)
  {
    frame[26..34] + [0, Protocol(frame), Length(frame) / 256, Length(frame) % 256]
  }

  /** With a 20-byte IP header, what is summed for TCP and UDP is the sum of pseudo header and segment;
      for ICMP and IGMP it is that of the message. */
  lemma PacketSumOfPseudo(frame: seq<byte>)
    requires Frame(frame) && LegalLength(frame) && HeaderLength(frame) == 20
    ensures var segment := frame[34..34 + Length(frame)];
      PacketSum(frame) == if Protocol(frame) <= IGMP then WordSum(segment) else WordSum(PseudoHeader(frame) + segment)
  {
    hide WordSum;
    var segment := frame[34..34 + Length(frame)];
    PacketSumIsPseudo(frame);
    if Protocol(frame) > IGMP {
      var a, b := frame[26..34], [0, Protocol(frame), Length(frame) / 256, Length(frame) % 256];
      assert frame[26..30] + frame[30..34] == a;
      assert (a + b) + segment == PseudoHeader(frame) + segment;
      WordSumConcat(a, segment);
      WordSumConcat(a, b);
      WordSumConcat(a + b, segment);
      FourBytes(b[0], b[1], b[2], b[3]);
      assert b == [b[0], b[1], b[2], b[3]];
    } else {
      assert [] + segment == segment;
    }
  }

  lemma WordSumConcat(a: seq<byte>, b: seq<byte>)
    requires |a| % 2 == 0
    ensures WordSum(a + b) == WordSum(a) + WordSum(b)
  {
    WordSumSplit(a + b, |a|);
  }

  /** The number that goes into the checksum field, or comes out of a check, for a given sum; it is
      in network order, and never zero. */
  function Verdict(sum: nat): uint16 {
    var checksum := 0xffff - Ones(sum);
    if checksum == 0 then 0xffff else Swap(checksum)
  }

  /** The frame with its checksum field set; a number in network order lies low byte first. */
  function WithField(frame: seq<byte>, value: uint16): seq<byte>
    requires 34 <= |frame| && Field(frame).Some? && Field(frame).value + 2 <= |frame|
  {
    frame[Field(frame).value := value % 256][Field(frame).value + 1 := value / 256]
  }

  /** The checksum field as a number in the order of the network's words. */
  function FieldWord(frame: seq<byte>): uint16
    requires 34 <= |frame| && Field(frame).Some? && Field(frame).value + 2 <= |frame|
  {
    Word(frame[Field(frame).value], frame[Field(frame).value + 1])
  }

  /** What the generator does to a frame. */
  function Sealed(frame: seq<byte>): seq<byte>
    requires Frame(frame)
  {
    if Field(frame).None? then frame
    else
      var blank := WithField(frame, 0);
      if !LegalLength(frame) then blank
      else
        BlankSame(frame, 0);
        WithField(blank, Verdict(PacketSum(blank)))
  }

  /** What the check of a frame returns. */
  function Checked(frame: seq<byte>): uint16
    requires Frame(frame)
  {
    if Field(frame).None? then UNHANDLED_PROTOCOL
    else if FieldWord(frame) == 0 then CORRECT_CRC
    else if !LegalLength(frame) then INVALID_LENGTH
    else Verdict(PacketSum(frame))
  }

  /** The checksum field belongs to none of the header fields the checksum code reads. */
  lemma BlankSame(frame: seq<byte>, value: uint16)
    requires Frame(frame) && Field(frame).Some? && LegalLength(frame)
    ensures var f := WithField(frame, value);
      && |f| == |frame| && Frame(f) && Field(f) == Field(frame) && LegalLength(f)
      && Protocol(f) == Protocol(frame) && Length(f) == Length(frame) && HeaderLength(f) == HeaderLength(frame)
      && Covered(f) == Covered(frame) && Seed(f) == Seed(frame)
  {}

  // ---- The code -------------------------------------------------------------------------

  /** Writes a number that is in network order. */
  method SetField(buf: array<byte>, at: nat, value: uint16)
    requires at + 2 <= buf.Length
    modifies buf
    ensures buf[..] == old(buf[..])[at := value % 256][at + 1 := value / 256]
  {
    buf[at], buf[at + 1] := value % 256, value / 256;
  }

  /** The numbers as the code computes them. */
  lemma PacketSumIs(frame: seq<byte>)
    requires Frame(frame) && LegalLength(frame)
    ensures var start := ETHERNET_HEADER + HeaderLength(frame);
      PacketSum(frame) == if Protocol(frame) <= IGMP then WordSum(frame[start..start + Length(frame)])
                          else Length(frame) + Protocol(frame) + WordSum(frame[26..34 + Length(frame)])
  {}

  lemma EvenAlign(address: nat, offset: nat)
    requires address % 2 == 0 && offset % 2 == 0
    ensures (address + offset) % 4 % 2 == 0
  {
    var q, r := (address + offset) / 4, (address + offset) % 4;
    assert r == 2 * (address / 2 + offset / 2 - 2 * q);
  }

  /** The one's complement of the sum, turned to network order and never zero. */
  method SumPacket(buf: array<byte>, address: nat) returns (checksum: uint16)
    requires Frame(buf[..]) && LegalLength(buf[..]) && address % 2 == 0
    ensures checksum == Verdict(PacketSum(buf[..]))
  {
    hide Ones, WordSum, PacketSum, Swap;
    PacketSumIs(buf[..]);
    EvenAlign(address, ETHERNET_HEADER + 4 * (buf[14] % 16));
    EvenAlign(address, 26);
    var headerLength := 4 * (buf[14] % 16);
    var protocol, length := buf[23], Word(buf[16], buf[17]) - headerLength;
    var sum: uint16;
    if protocol <= IGMP {
      var start := ETHERNET_HEADER + headerLength;
      sum := GenerateChecksum(0, buf[start..start + length], (address + start) % 4);
    } else {
      sum := GenerateChecksum(length + protocol, buf[26..34 + length], (address + 26) % 4);
    }
    checksum := 0xffff - sum;
    if checksum == 0 {
      checksum := 0xffff;
    } else {
      checksum := Swap(checksum);
    }
  }

  /** usGenerateProtocolChecksum, for a buffer at an even address. */
  method GenerateProtocolChecksum(buf: array<byte>, address: nat, outgoing: bool) returns (checksum: uint16)
    requires Frame(buf[..]) && address % 2 == 0
    modifies buf
    ensures !outgoing ==> buf[..] == old(buf[..]) && checksum == Checked(buf[..])
    ensures outgoing ==> buf[..] == Sealed(old(buf[..]))
    ensures outgoing ==> checksum == SealedResult(old(buf[..]))
  {
    hide Verdict, PacketSum, WithField, Frame, LegalLength;
    ghost var before := buf[..];
    FrameHasHeader(before);
    var start := ETHERNET_HEADER + 4 * (buf[14] % 16);
    var protocol, at := buf[23], 0;
    if protocol == UDP {
      at := start + 6;
    } else if protocol == TCP {
      at := start + 16;
    } else if protocol == ICMP || protocol == IGMP {
      at := start + 2;
    } else {
      return UNHANDLED_PROTOCOL;
    }
    if outgoing {
      SetField(buf, at, 0);
      FieldIs(before, at, 0);
      BlankKeepsLength(before, 0);
      assert buf[..] == WithField(before, 0);
    } else if buf[at] == 0 && buf[at + 1] == 0 {
      return CORRECT_CRC;
    }
    ghost var now := buf[..];
    FrameHasHeader(now);
    var headerLength := 4 * (buf[14] % 16);
    var length := Word(buf[16], buf[17]) - headerLength;
    LegalIs(now, length);
    if length < 8 || length > MTU - headerLength {
      return INVALID_LENGTH;
    }
    checksum := SumPacket(buf, address);
    if outgoing {
      SetField(buf, at, checksum);
      FieldIs(now, at, checksum);
    }
  }

  lemma FrameHasHeader(frame: seq<byte>)
    requires Frame(frame)
    ensures 34 <= |frame| && (Field(frame).Some? ==> Field(frame).value + 2 <= |frame|)
  {}

  lemma FieldIs(frame: seq<byte>, at: nat, value: uint16)
    requires 34 <= |frame| && Field(frame) == Some(at) && at + 2 <= |frame|
    ensures WithField(frame, value) == frame[at := value % 256][at + 1 := value / 256]
  {}

  lemma LegalIs(frame: seq<byte>, length: int)
    requires 34 <= |frame| && length == Word(frame[16], frame[17]) - HeaderLength(frame)
    ensures LegalLength(frame) <==> 8 <= length <= MTU - HeaderLength(frame)
  {}

  /** What the generator returns. */
  function SealedResult(frame: seq<byte>): uint16
    requires Frame(frame)
  {
    if Field(frame).None? then UNHANDLED_PROTOCOL
    else if !LegalLength(frame) then INVALID_LENGTH
    else
      BlankSame(frame, 0);
      Verdict(PacketSum(WithField(frame, 0)))
  }

  lemma BlankKeepsLength(frame: seq<byte>, value: uint16)
    requires Frame(frame) && Field(frame).Some?
    ensures var f := WithField(frame, value);
      Frame(f) && Field(f) == Field(frame) && (LegalLength(f) <==> LegalLength(frame))
  {}

  // ---- Generating and checking ----------------------------------------------------------

  /** Exchanging one word of the data. */
  lemma {:induction false} WordSumSet(data: seq<byte>, i: nat, high: byte, low: byte)
    requires i % 2 == 0 && i + 2 <= |data|
    ensures WordSum(data[i := high][i + 1 := low]) + Word(data[i], data[i + 1]) == WordSum(data) + Word(high, low)
    decreases |data|
  {
    var n := |data|;
    var after := data[i := high][i + 1 := low];
    if i + 2 == n {
      WordSumPair(data);
      WordSumPair(after);
      assert after[..n - 2] == data[..n - 2];
    } else {
      assert after[..n - 1] == data[..n - 1][i := high][i + 1 := low];
      WordSumSet(data[..n - 1], i, high, low);
    }
  }

  /** The word that Verdict puts into the field. */
  function VerdictWord(sum: nat): uint16 {
    if Ones(sum) == 0xffff then 0xffff else 0xffff - Ones(sum)
  }

  lemma VerdictStored(sum: nat)
    ensures Word(Verdict(sum) % 256, Verdict(sum) / 256) == VerdictWord(sum) && VerdictWord(sum) != 0
  {
    hide Ones;
    SwapMod(0xffff - Ones(sum));
  }

  lemma VerdictCompletes(sum: nat)
    ensures (sum + VerdictWord(sum)) % 65535 == 0
  {}

  lemma VerdictExact(sum: nat)
    ensures Verdict(sum) != 0
    ensures sum > 0 ==> (Verdict(sum) == CORRECT_CRC <==> sum % 65535 == 0)
  {
    hide Ones;
    OnesIs(sum);
  }

  /** The checksum field is among the bytes that are summed. */
  predicate FieldCovered(frame: seq<byte>)
    requires Frame(frame) && Field(frame).Some? && LegalLength(frame)
  {
    Field(frame).value + 2 <= Covered(frame).1
  }

  /** How much of the checksum word is among the bytes that are summed: all of it, its high byte
      only, or nothing. */
  function Share(frame: seq<byte>, word: uint16): uint16
    requires Frame(frame) && Field(frame).Some? && LegalLength(frame)
  {
    if FieldCovered(frame) then word
    else if Field(frame).value + 1 == Covered(frame).1 then Word(word / 256, 0)
    else 0
  }

  lemma WordSumLast(data: seq<byte>, high: byte)
    requires |data| % 2 == 1
    ensures WordSum(data[|data| - 1 := high]) + Word(data[|data| - 1], 0) == WordSum(data) + Word(high, 0)
  {}

  /** Exchanging a word, of which all, the first byte or nothing lies in the bytes that are summed. */
  lemma RangeSumSet(frame: seq<byte>, at: nat, lo: nat, hi: nat, high: byte, low: byte)
    requires lo <= hi <= |frame| && lo <= at && at + 2 <= |frame| && lo % 2 == 0 && at % 2 == 0
    ensures var f := frame[at := high][at + 1 := low];
      && (at + 2 <= hi ==>
            WordSum(f[lo..hi]) + Word(frame[at], frame[at + 1]) == WordSum(frame[lo..hi]) + Word(high, low))
      && (at + 1 == hi ==> WordSum(f[lo..hi]) + Word(frame[at], 0) == WordSum(frame[lo..hi]) + Word(high, 0))
      && (hi <= at ==> f[lo..hi] == frame[lo..hi])
  {
    hide WordSum;
    var f, data := frame[at := high][at + 1 := low], frame[lo..hi];
    if at + 2 <= hi {
      assert f[lo..hi] == data[at - lo := high][at - lo + 1 := low];
      WordSumSet(data, at - lo, high, low);
    } else if at + 1 == hi {
      assert f[lo..hi] == data[|data| - 1 := high];
      WordSumLast(data, high);
    }
  }

  lemma FieldAfter(frame: seq<byte>)
    requires Frame(frame) && Field(frame).Some? && LegalLength(frame)
    ensures Covered(frame).0 <= Field(frame).value
  {}

  lemma ShareOf(frame: seq<byte>, high: byte, low: byte)
    requires Frame(frame) && Field(frame).Some? && LegalLength(frame)
    ensures Share(frame, Word(high, low))
      == if Field(frame).value + 2 <= Covered(frame).1 then Word(high, low)
         else if Field(frame).value + 1 == Covered(frame).1 then Word(high, 0) else 0
  {}

  lemma PacketSumSet(frame: seq<byte>, value: uint16)
    requires Frame(frame) && Field(frame).Some? && LegalLength(frame)
    ensures var f := WithField(frame, value);
      && Frame(f) && LegalLength(f)
      && PacketSum(f) + Share(frame, FieldWord(frame))
         == PacketSum(frame) + Share(frame, Word(value % 256, value / 256))
  {
    hide Word, Share, WordSum, Seed, Covered, Field, TotalLength, HeaderLength, Protocol, Length, LegalLength;
    BlankSame(frame, value);
    FieldAfter(frame);
    var c, at := Covered(frame), Field(frame).value;
    ShareOf(frame, frame[at], frame[at + 1]);
    ShareOf(frame, value % 256, value / 256);
    RangeSumSet(frame, Field(frame).value, c.0, c.1, value % 256, value / 256);
  }

  /** Not even an empty payload sums to zero when the checksum is set. */
  lemma PacketSumPositive(frame: seq<byte>)
    requires Frame(frame) && Field(frame).Some? && LegalLength(frame) && FieldWord(frame) != 0
    ensures PacketSum(frame) > 0
  {
    hide WordSum;
    if Protocol(frame) <= IGMP {
      PacketSumSet(frame, 0);
    }
  }

  /** An incoming frame whose checksum is set passes the check exactly when its one's complement sum,
      with the pseudo header for UDP and TCP, is zero. */
  lemma CheckExact(frame: seq<byte>)
    requires Frame(frame) && Field(frame).Some? && LegalLength(frame) && FieldWord(frame) != 0
    ensures Checked(frame) == CORRECT_CRC <==> PacketSum(frame) % 65535 == 0
  {
    hide Verdict, PacketSum;
    PacketSumPositive(frame);
    VerdictExact(PacketSum(frame));
  }

  /** The sum completes to zero by chance, although part of the checksum field is not summed. */
  predicate ByChance(frame: seq<byte>)
    requires Frame(frame) && Field(frame).Some? && LegalLength(frame)
  {
    BlankSame(frame, 0);
    var sum := PacketSum(WithField(frame, 0));
    if Field(frame).value + 1 == Covered(frame).1 then VerdictWord(sum) % 256 == 0 else sum % 65535 == 0
  }

  /** A frame that has been sealed carries a checksum that is not zero. It passes the check if and
      only if the checksum field is among the bytes that are summed, chance apart. The field of a TCP
      segment of fewer than 18 bytes is not, although a length of 8 is let through. */
  lemma RoundTripExact(frame: seq<byte>)
    requires Frame(frame) && Field(frame).Some? && LegalLength(frame)
    ensures Frame(Sealed(frame)) && Field(Sealed(frame)) == Field(frame) && FieldWord(Sealed(frame)) != 0
    ensures Checked(Sealed(frame)) == CORRECT_CRC <==> FieldCovered(frame) || ByChance(frame)
  {
    hide Verdict, PacketSum, VerdictWord, Covered, Protocol, HeaderLength;
    var blank := WithField(frame, 0);
    BlankSame(frame, 0);
    var sum := PacketSum(blank);
    VerdictStored(sum);
    BlankSame(blank, Verdict(sum));
    PacketSumSet(blank, Verdict(sum));
    CheckExact(Sealed(frame));
    ShareCompletes(blank, sum);
  }

  lemma ShareCompletes(frame: seq<byte>, sum: nat)
    requires Frame(frame) && Field(frame).Some? && LegalLength(frame)
    ensures (sum + Share(frame, VerdictWord(sum))) % 65535 == 0
      <==> FieldCovered(frame)
           || (if Field(frame).value + 1 == Covered(frame).1 then VerdictWord(sum) % 256 == 0 else sum % 65535 == 0)
  {
    hide Covered, Field;
    VerdictCompletes(sum);
    HighByteCompletes(sum, VerdictWord(sum));
  }

  lemma HighByteCompletes(sum: nat, word: uint16)
    requires (sum + word) % 65535 == 0
    ensures (sum + Word(word / 256, 0)) % 65535 == 0 <==> word % 256 == 0
  {}
}
