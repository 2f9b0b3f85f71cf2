/** The Internet checksum of FreeRTOS_IP.c on a little-endian machine: 32-bit additions with
    deferred carries against the 16-bit one's complement sum of section 2 of RFC 1071. */
module Checksum {
  import opened Common

  // ---- One's complement sums ------------------------------------------------------------

  /** The 16-bit one's complement number that a sum of 16-bit words folds to. */
  function Ones(n: nat): uint16 {
    if n == 0 then 0 else (n - 1) % 65535 + 1
  }

  /** A 16-bit number with its two bytes exchanged. */
  function Swap(x: uint16): uint16 {
    x % 256 * 256 + x / 256
  }

  /** The sum of the big-endian 16-bit words of the data; an odd byte at the end is the high byte
      of a word. */
  function WordSum(data: seq<byte>): nat {
    if data == [] then 0
    else WordSum(data[..|data| - 1]) + Word(if |data| % 2 == 1 then data[|data| - 1] else 0,
                                            if |data| % 2 == 1 then 0 else data[|data| - 1])
  }

  function Word(high: int, low: int): int {
    256 * high + low
  }

  /** The folded number is the remainder, except that only 0 folds to 0. */
  lemma OnesIs(n: nat)
    ensures n % 65535 == Ones(n) % 65535 && (Ones(n) == 0 <==> n == 0)
    ensures Ones(n) % 65535 == if Ones(n) == 65535 then 0 else Ones(n)
  {
    if n > 0 {
      assert n == 65535 * ((n - 1) / 65535) + Ones(n);
      ModShift(Ones(n), (n - 1) / 65535);
    }
  }

  lemma OnesMeans(a: nat, b: nat)
    ensures Ones(a) == Ones(b) <==> a % 65535 == b % 65535 && (a == 0 <==> b == 0)
  {
    hide Ones;
    OnesIs(a);
    OnesIs(b);
  }

  lemma OnesAdd(a: nat, b: nat, c: nat)
    requires Ones(a) == Ones(b)
    ensures Ones(a + c) == Ones(b + c)
  {
    hide Ones;
    OnesMeans(a, b);
    AddMod(a, b, c);
    OnesMeans(a + c, b + c);
  }

  lemma ModShift(x: int, k: int)
    ensures (x + 65535 * k) % 65535 == x % 65535
  {}

  lemma AddMod(a: int, b: int, c: int)
    requires a % 65535 == b % 65535
    ensures (a + c) % 65535 == (b + c) % 65535
  {}

  /** A carry out of 16 bits comes in again at the bottom. */
  lemma FoldKeeps(low: nat, high: nat)
    ensures Ones(low + 65536 * high) == Ones(low + high)
  {
    hide Ones;
    ModShift(low + high, high);
    OnesMeans(low + 65536 * high, low + high);
  }

  /** So does a carry out of 32 bits. */
  lemma CarryKeeps(low: nat, carry: nat)
    ensures Ones(low + 0x1_0000_0000 * carry) == Ones(low + carry)
  {
    hide Ones;
    ModShift(low + carry, 65537 * carry);
    OnesMeans(low + 0x1_0000_0000 * carry, low + carry);
  }

  /** Exchanging the bytes of a folded sum is folding the sum of the exchanged words. */
  lemma SwapOnes(n: nat)
    ensures Swap(Ones(n)) == Ones(256 * n)
  {
    SwapMod(Ones(n));
    OnesSmall(Swap(Ones(n)));
    OnesMeans(Ones(n), n);
    OnesSmall(Ones(n));
    TimesMod(Ones(n), n);
    OnesMeans(Swap(Ones(n)), 256 * n);
  }

  lemma OnesSmall(x: uint16)
    ensures Ones(x) == x
  {}

  lemma SwapMod(x: uint16)
    ensures Swap(x) % 65535 == (256 * x) % 65535 && (Swap(x) == 0 <==> x == 0)
    ensures Swap(Swap(x)) == x
  {
    hide Swap;
    SwapParts(x, x / 256, x % 256);
    SwapParts(Swap(x), x % 256, x / 256);
    ModShift(Swap(x), x / 256);
  }

  lemma SwapParts(x: uint16, high: byte, low: byte)
    requires x == 256 * high + low
    ensures Swap(x) == 256 * low + high
  {}

  lemma TimesMod(a: nat, b: nat)
    requires a % 65535 == b % 65535
    ensures (256 * a) % 65535 == (256 * b) % 65535
  {
    var q, r := a / 65535, a % 65535;
    var p := b / 65535;
    assert 256 * a == 256 * r + 65535 * (256 * q);
    assert 256 * b == 256 * r + 65535 * (256 * p);
    ModShift(256 * r, 256 * q);
    ModShift(256 * r, 256 * p);
  }

  // ---- Words as a little-endian machine loads them --------------------------------------

  function Load16(data: seq<byte>, i: nat): uint16
    requires i + 2 <= |data|
  {
    Word(data[i + 1], data[i])
  }

  function Load32(data: seq<byte>, i: nat): uint32
    requires i + 4 <= |data|
  {
    Load16(data, i) + 65536 * Load16(data, i + 2)
  }

  /** The sum of the given number of 16-bit words, loaded from position from on. */
  function LoadSum(data: seq<byte>, from: nat, words: nat): nat
    requires from + 2 * words <= |data|
  {
    if words == 0 then 0 else LoadSum(data, from, words - 1) + Load16(data, from + 2 * words - 2)
  }

  /** All of the data, loaded from an even address: the last odd byte is the low one of a word. */
  function LoadAll(data: seq<byte>): nat {
    LoadSum(data, 0, |data| / 2) + if |data| % 2 == 1 then data[|data| - 1] else 0
  }

  /** All of the data, loaded from an odd address: the first byte is the high one of a word. */
  function LoadShifted(data: seq<byte>): nat
    requires data != []
  {
    Word(data[0], 0) + LoadSum(data, 1, (|data| - 1) / 2) + if |data| % 2 == 0 then data[|data| - 1] else 0
  }

  /** The sum of the bytes at odd positions. */
  function OddBytes(data: seq<byte>): nat {
    if |data| < 2 then 0
    else if |data| % 2 == 1 then OddBytes(data[..|data| - 1])
    else OddBytes(data[..|data| - 2]) + data[|data| - 1]
  }

  lemma {:induction false} LoadSumPrefix(data: seq<byte>, n: nat, from: nat, words: nat)
    requires from + 2 * words <= n <= |data|
    ensures LoadSum(data[..n], from, words) == LoadSum(data, from, words)
  {
    if words > 0 {
      LoadSumPrefix(data, n, from, words - 1);
    }
  }

  lemma LoadOne(data: seq<byte>, from: nat, k: nat)
    requires from + 2 * k + 2 <= |data|
    ensures LoadSum(data, from, k + 1) == LoadSum(data, from, k) + Load16(data, from + 2 * k)
  {
    hide Load16;
  }

  lemma WordSumPair(data: seq<byte>)
    requires |data| >= 2 && |data| % 2 == 0
    ensures var n := |data|; WordSum(data) == WordSum(data[..n - 2]) + Word(data[n - 2], data[n - 1])
  {
    hide WordSum;
    var n := |data|;
    WordSumEven(data);
    WordSumOdd(data[..n - 1]);
    assert data[..n - 1][..n - 2] == data[..n - 2];
  }

  lemma WordSumOdd(data: seq<byte>)
    requires |data| % 2 == 1
    ensures WordSum(data) == WordSum(data[..|data| - 1]) + Word(data[|data| - 1], 0)
  {}

  lemma WordSumEven(data: seq<byte>)
    requires |data| >= 2 && |data| % 2 == 0
    ensures WordSum(data) == WordSum(data[..|data| - 1]) + data[|data| - 1]
  {}

  /** The sum of data is that of an even number of bytes, and of the rest. */
  lemma {:induction false} WordSumSplit(data: seq<byte>, k: nat)
    requires k % 2 == 0 && k <= |data|
    ensures WordSum(data) == WordSum(data[..k]) + WordSum(data[k..])
    decreases |data|
  {
    hide WordSum;
    var n := |data|;
    if k == n {
      assert data[..k] == data && data[k..] == [];
      WordSumEmpty();
    } else {
      var front, back := data[..n - 1], data[k..];
      WordSumSplit(front, k);
      assert front[..k] == data[..k] && back[..|back| - 1] == front[k..] && back[|back| - 1] == data[n - 1];
      if n % 2 == 1 {
        WordSumOdd(data);
        WordSumOdd(back);
      } else {
        WordSumEven(data);
        WordSumEven(back);
      }
    }
  }

  lemma WordSumEmpty()
    ensures WordSum([]) == 0
  {}

  lemma FourBytes(a: byte, b: byte, c: byte, d: byte)
    ensures WordSum([a, b, c, d]) == Word(a, b) + Word(c, d)
  {
    var s: seq<byte> := [a, b, c, d];
    WordSumPair(s);
    WordSumPair(s[..2]);
    assert s[..2][..0] == [];
  }

  /** Exchanged words have an exchanged sum, up to multiples of 65535. */
  lemma {:induction false} LoadAllSwapped(data: seq<byte>)
    ensures 256 * LoadAll(data) == WordSum(data) + 65535 * OddBytes(data)
    ensures OddBytes(data) <= WordSum(data)
    decreases |data|
  {
    hide LoadAll, WordSum, OddBytes;
    var n := |data|;
    if n == 0 {
      AllOfNothing(data);
    } else if n % 2 == 1 {
      LoadAllSwapped(data[..n - 1]);
      LoadAllOdd(data);
      WordSumOdd(data);
    } else {
      LoadAllSwapped(data[..n - 2]);
      LoadAllPair(data);
      OddBytesPair(data);
      WordSumPair(data);
    }
  }

  lemma AllOfNothing(data: seq<byte>)
    requires data == []
    ensures LoadAll(data) == WordSum(data) == OddBytes(data) == 0
  {}

  lemma LoadAllOdd(data: seq<byte>)
    requires |data| % 2 == 1
    ensures var n := |data|;
      && LoadAll(data) == LoadAll(data[..n - 1]) + data[n - 1]
      && OddBytes(data) == OddBytes(data[..n - 1])
  {
    hide Load16, LoadSum, Word;
    LoadSumPrefix(data, |data| - 1, 0, |data| / 2);
  }

  lemma LoadAllPair(data: seq<byte>)
    requires |data| >= 2 && |data| % 2 == 0
    ensures var n := |data|; LoadAll(data) == LoadAll(data[..n - 2]) + Word(data[n - 1], data[n - 2])
  {
    hide LoadSum, LoadAll, Word;
    var m := |data| / 2;
    assert |data| == 2 * m;
    LoadAllEven(data, m);
    LoadAllEven(data[..|data| - 2], m - 1);
    LoadSumPrefix(data, |data| - 2, 0, m - 1);
    LoadOne(data, 0, m - 1);
  }

  lemma LoadAllEven(data: seq<byte>, m: nat)
    requires |data| == 2 * m
    ensures LoadAll(data) == LoadSum(data, 0, m)
  {
    hide LoadSum;
  }

  lemma OddBytesPair(data: seq<byte>)
    requires |data| >= 2 && |data| % 2 == 0
    ensures OddBytes(data) == OddBytes(data[..|data| - 2]) + data[|data| - 1]
  {}

  lemma {:induction false} LoadShiftedIsWordSum(data: seq<byte>)
    requires data != []
    ensures LoadShifted(data) == WordSum(data)
    decreases |data|
  {
    var n := |data|;
    var d := data[..n - 1];
    if n == 1 {
      assert d == [];
    } else {
      LoadShiftedIsWordSum(d);
      LoadSumPrefix(data, n - 1, 1, (n - 2) / 2);
    }
  }

  lemma Congruent(a: nat, b: nat, k: nat)
    requires a == b + 65535 * k && (b == 0 ==> k == 0)
    ensures Ones(a) == Ones(b)
  {
    hide Ones;
    ModShift(b, k);
    OnesMeans(a, b);
  }

  lemma SwapTimes(x: uint16)
    ensures 256 * Swap(x) == 65535 * (Swap(x) / 256) + x && (x == 0 ==> Swap(x) == 0)
  {
    hide Swap;
    SwapParts(x, x / 256, x % 256);
    HighByte(x % 256, x / 256);
  }

  lemma HighByte(high: byte, low: byte)
    ensures (256 * high + low) / 256 == high
  {}

  /** What the little-endian sum says about the checksum, for an even start: seed and data come in
      exchanged, and the result goes out exchanged. */
  lemma EvenStart(seed: uint16, data: seq<byte>)
    ensures Swap(Ones(Swap(seed) + LoadAll(data))) == Ones(seed + WordSum(data))
  {
    hide Ones, Swap, WordSum, OddBytes, LoadAll;
    LoadAllSwapped(data);
    SwapTimes(seed);
    SwapOnes(Swap(seed) + LoadAll(data));
    Congruent(256 * (Swap(seed) + LoadAll(data)), seed + WordSum(data), OddBytes(data) + Swap(seed) / 256);
  }

  // ---- usGenerateChecksum ---------------------------------------------------------------

  /** One 32-bit addition with its carry. */
  method AddCarry(sum: uint32, w: uint32, carry: nat) returns (sum': uint32, carry': nat)
    ensures Ones(sum' + carry') == Ones(sum + carry + w)
    ensures carry <= carry' <= carry + 1
  {
    sum' := (sum + w) % 0x1_0000_0000;
    carry' := if sum' < sum then carry + 1 else carry;
    CarryKeeps(sum' + carry, if sum' < sum then 1 else 0);
  }

  lemma LoadFolds(n: nat, data: seq<byte>, i: nat)
    requires i + 4 <= |data|
    ensures Ones(n + Load32(data, i)) == Ones(n + (Load16(data, i) + Load16(data, i + 2)))
  {
    hide Ones, Load16;
    FoldKeeps(n + Load16(data, i), Load16(data, i + 2));
  }

  /** One 32-bit word more. */
  lemma OneMore(data: seq<byte>, from: nat, k: nat, base: nat, sum: nat, sum': nat)
    requires from + 2 * k + 4 <= |data|
    requires Ones(sum) == Ones(base + LoadSum(data, from, k))
    requires Ones(sum') == Ones(sum + Load32(data, from + 2 * k))
    ensures Ones(sum') == Ones(base + LoadSum(data, from, k + 2))
  {
    hide Ones, Load32, Load16, LoadSum;
    OnesAdd(sum, base + LoadSum(data, from, k), Load32(data, from + 2 * k));
    LoadFolds(base + LoadSum(data, from, k), data, from + 2 * k);
    LoadTwo(data, from, k);
  }

  lemma LoadTwo(data: seq<byte>, from: nat, k: nat)
    requires from + 2 * k + 4 <= |data|
    ensures LoadSum(data, from, k + 2)
         == LoadSum(data, from, k) + (Load16(data, from + 2 * k) + Load16(data, from + 2 * k + 2))
  {
    hide Load16, LoadSum;
    LoadOne(data, from, k);
    LoadOne(data, from, k + 1);
  }

  /** Four 32-bit words from position i on, each added with its carry. */
  method AddFour(data: seq<byte>, i: nat, sum: uint32, carry: nat, ghost from: nat, ghost k: nat, ghost base: nat)
    returns (sum': uint32, carry': nat)
    requires i == from + 2 * k && i + 16 <= |data|
    requires Ones(sum + carry) == Ones(base + LoadSum(data, from, k))
    ensures Ones(sum' + carry') == Ones(base + LoadSum(data, from, k + 8))
    ensures carry' <= carry + 4
  {
    hide Ones, Load32, LoadSum;
    ghost var n := sum + carry;
    sum', carry' := AddCarry(sum, Load32(data, i), carry);
    OneMore(data, from, k, base, n, sum' + carry');
    n := sum' + carry';
    sum', carry' := AddCarry(sum', Load32(data, i + 4), carry');
    OneMore(data, from, k + 2, base, n, sum' + carry');
    n := sum' + carry';
    sum', carry' := AddCarry(sum', Load32(data, i + 8), carry');
    OneMore(data, from, k + 4, base, n, sum' + carry');
    n := sum' + carry';
    sum', carry' := AddCarry(sum', Load32(data, i + 12), carry');
    OneMore(data, from, k + 6, base, n, sum' + carry');
  }

  /** The high and low half of the accumulator are added, with the carries counted so far. */
  method Fold(sum: uint32, carry: nat) returns (sum': nat)
    ensures Ones(sum') == Ones(sum + carry)
    ensures sum' == sum % 65536 + sum / 65536 + carry
    ensures sum' <= 131070 + carry && (sum <= 131070 ==> sum' <= 65535 + carry)
  {
    sum' := sum % 65536 + sum / 65536 + carry;
    FoldKeeps(sum % 65536 + carry, sum / 65536);
  }

  /** The bytes that are left after the 16-byte rounds. */
  lemma RoundsDone(left: nat, rounds: nat)
    requires 4 * (left / 4) - 12 <= 16 * rounds <= 4 * (left / 4)
    ensures left - 16 * rounds == left % 16
  {}

  /** The 16-byte rounds from src on; src' is where they stop. */
  method SumRounds(data: seq<byte>, src: nat, sum: uint32, ghost from: nat, ghost k: nat, ghost base: nat)
    returns (src': nat, sum': uint32, carry: nat, ghost rounds: nat)
    requires src == from + 2 * k <= |data|
    requires Ones(sum) == Ones(base + LoadSum(data, from, k))
    ensures src' == src + 16 * rounds <= |data| && |data| - src' == (|data| - src) % 16
    ensures Ones(sum' + carry) == Ones(base + LoadSum(data, from, k + 8 * rounds))
    ensures carry <= 4 * rounds
  {
    hide Ones, LoadSum;
    src', sum', carry, rounds := src, sum, 0, 0;
    var words := (|data| - src) / 4;
    var last := src + 4 * words - 12;
    while src' < last
      invariant src' == src + 16 * rounds && 4 * rounds <= words
      invariant Ones(sum' + carry) == Ones(base + LoadSum(data, from, k + 8 * rounds))
      invariant carry <= 4 * rounds
    {
      sum', carry := AddFour(data, src', sum', carry, from, k + 8 * rounds, base);
      src', rounds := src' + 16, rounds + 1;
    }
    RoundsDone(|data| - src, rounds);
  }

  /** The 16-bit words that are left. */
  method SumRest(data: seq<byte>, src: nat, sum: nat, ghost from: nat, ghost k: nat, ghost base: nat)
    returns (src': nat, sum': nat, ghost words: nat)
    requires src == from + 2 * k <= |data| && |data| - src < 16
    requires Ones(sum) == Ones(base + LoadSum(data, from, k))
    ensures src' == src + 2 * words <= |data| && |data| - src' == (|data| - src) % 2
    ensures Ones(sum') == Ones(base + LoadSum(data, from, k + words))
    ensures sum' <= sum + 8 * 65535
  {
    hide Ones, Load16, LoadSum;
    src', sum', words := src, sum, 0;
    var half := (|data| - src) / 2;
    while src' < src + 2 * half
      invariant src' == src + 2 * words && words <= half
      invariant Ones(sum') == Ones(base + LoadSum(data, from, k + words))
      invariant sum' <= sum + words * 65535
    {
      OnesAdd(sum', base + LoadSum(data, from, k + words), Load16(data, src'));
      LoadOne(data, from, k + words);
      sum' := sum' + Load16(data, src');
      src', words := src' + 2, words + 1;
    }
  }

  /** All of the data, as it is loaded from an address of the given parity. */
  function Loaded(data: seq<byte>, odd: bool): nat {
    if odd && data != [] then LoadShifted(data) else LoadAll(data)
  }

  lemma NothingYet(data: seq<byte>, from: nat, base: nat)
    requires from <= |data|
    ensures Ones(base) == Ones(base + LoadSum(data, from, 0))
  {}

  lemma OneWord(data: seq<byte>, from: nat, base: nat)
    requires from + 2 <= |data|
    ensures Ones(base + Load16(data, from)) == Ones(base + LoadSum(data, from, 1))
  {}

  /** What has been summed, together with the single bytes at either end, is all of the data. */
  lemma AllLoaded(data: seq<byte>, odd: bool, words: nat, sum: nat, term: nat, base: nat)
    requires var from := if odd && data != [] then 1 else 0; var src := from + 2 * words;
      && src <= |data| < src + 2
      && Ones(sum) == Ones(base + LoadSum(data, from, words))
      && term == (if from == 1 then Word(data[0], 0) else 0) + (if src < |data| then data[src] else 0)
    ensures Ones(sum + term) == Ones(base + Loaded(data, odd))
  {
    hide Ones, LoadSum;
    var from := if odd && data != [] then 1 else 0;
    OnesAdd(sum, base + LoadSum(data, from, words), term);
    assert words == (|data| - from) / 2;
    assert LoadSum(data, from, words) + term == Loaded(data, odd);
  }

  /** The folded sum, turned back to the order of the network. */
  lemma TurnedBack(seed: uint16, data: seq<byte>, odd: bool, sum: uint16)
    requires Ones(sum) == Ones(Swap(seed) + Loaded(data, odd))
    ensures Swap(if odd then Swap(sum) else sum) == Ones((if odd then Swap(seed) else seed) + WordSum(data))
  {
    hide Ones, Swap;
    OnesSmall(sum);
    if odd {
      SwapMod(sum);
      if data == [] {
        assert LoadAll(data) == WordSum(data);
      } else {
        LoadShiftedIsWordSum(data);
      }
    } else {
      EvenStart(seed, data);
    }
  }

  /** usGenerateChecksum of data at an address that is align modulo 4. */
  method GenerateChecksum(seed: uint16, data: seq<byte>, align: nat) returns (checksum: uint16)
    requires align < 4 && |data| < 0x8000_0000
    ensures checksum == Ones((if align % 2 == 1 then Swap(seed) else seed) + WordSum(data))
  {
    hide Ones, LoadSum, Swap, WordSum, LoadAll, LoadShifted, Loaded, Load16;
    var sum: nat, term: nat, src: nat := Swap(seed), 0, 0;
    if align % 2 == 1 && |data| >= 1 {
      term := Word(data[0], 0);
      src := 1;
    }
    ghost var from, k := src, 0;
    NothingYet(data, from, Swap(seed));
    if (align == 1 || align == 2) && |data| - src >= 2 {
      OneWord(data, from, Swap(seed));
      sum := sum + Load16(data, src);
      src, k := src + 2, 1;
    }
    var carry: nat;
    ghost var rounds: nat, words: nat;
    src, sum, carry, rounds := SumRounds(data, src, sum, from, k, Swap(seed));
    sum := Fold(sum, carry);
    src, sum, words := SumRest(data, src, sum, from, k + 8 * rounds, Swap(seed));
    if src < |data| {
      term := term + data[src];
    }
    AllLoaded(data, align % 2 == 1, k + 8 * rounds + words, sum, term, Swap(seed));
    sum := Fold(sum + term, 0);
    sum := Fold(sum, 0);
    TurnedBack(seed, data, align % 2 == 1, sum);
    if align % 2 == 1 {
      sum := Swap(sum);
    }
    checksum := Swap(sum);
  }

  /** From an odd address the seed comes in with its bytes exchanged: the result is the checksum of
      section 2 of RFC 1071 if and only if that makes no difference. */
  lemma SeedExact(seed: uint16, data: seq<byte>)
    ensures Ones(Swap(seed) + WordSum(data)) == Ones(seed + WordSum(data)) <==> seed / 256 == seed % 256
  {
    hide WordSum;
    OnesMeans(Swap(seed) + WordSum(data), seed + WordSum(data));
    SeedDiffers(seed, WordSum(data));
  }

  lemma SeedDiffers(seed: uint16, n: nat)
    ensures (Swap(seed) + n) % 65535 == (seed + n) % 65535 <==> seed / 256 == seed % 256
    ensures Swap(seed) + n == 0 <==> seed + n == 0
  {
    var d := Swap(seed) - seed;
    assert d == 255 * (seed % 256 - seed / 256);
    var q := (Swap(seed) + n) / 65535 - (seed + n) / 65535;
    if (Swap(seed) + n) % 65535 == (seed + n) % 65535 {
      assert d == 65535 * q;
    }
  }
}
