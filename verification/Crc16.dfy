/** CRC16 as Redis Cluster hashes keys (XMODEM: polynomial 0x1021, initial value zero,
    most significant bit first; Appendix A of the Redis Cluster Specification).

    The code looks a byte at a time up in a table of 256 entries; the definition takes one
    message bit at a time. They agree on every string, because the register's step is
    linear over exclusive-or. A word is written as the set of its one bits, bit 0 being
    the least significant. */
module Crc16 {
  import opened Octets

  type Word = set<nat>

  function Xor(a: Word, b: Word): Word {
    (a - b) + (b - a)
  }

  /** Shift left by n within sixteen bits. */
  function Up(c: Word, n: nat): Word {
    set k | k in c && k + n < 16 :: k + n
  }

  /** Shift right by n. */
  function Down(c: Word, n: nat): Word {
    set k | k in c && k >= n :: k - n
  }

  // ---------- numbers ----------

  function One(b: bool): nat {
    if b then 1 else 0
  }

  /** The bits of a number, the lowest being bit k. */
  function BitsFrom(x: nat, k: nat): Word {
    if x == 0 then {} else BitsFrom(x / 2, k + 1) + if x % 2 == 1 then {k} else {}
  }

  function Bits(x: Byte): Word {
    BitsFrom(x, 0)
  }

  /** The number whose bits are those of c from bit k up to bit k + n. */
  function Number(c: Word, k: nat, n: nat): nat
    decreases n, c
  {
    if n == 0 then 0 else One(k in c) + 2 * Number(c, k + 1, n - 1)
  }

  function Pow2(n: nat): nat {
    if n == 0 then 1 else 2 * Pow2(n - 1)
  }

  lemma {:induction false} NumberBound(c: Word, k: nat, n: nat)
    ensures Number(c, k, n) < Pow2(n)
    decreases n
  {
    if n > 0 { NumberBound(c, k + 1, n - 1); }
  }

  lemma {:induction false} BitsOfNumber(c: Word, k: nat, n: nat)
    requires forall j <- c :: j < k + n
    ensures BitsFrom(Number(c, k, n), k) == set j | j in c && j >= k
    decreases n
  {
    if n > 0 { BitsOfNumber(c, k + 1, n - 1); }
  }

  lemma {:induction false} BitsFromRange(x: nat, k: nat, n: nat)
    requires x < Pow2(n)
    ensures forall j <- BitsFrom(x, k) :: k <= j < k + n
  {
    if x > 0 { BitsFromRange(x / 2, k + 1, n - 1); }
  }

  lemma BitsBelowEight(x: Byte)
    ensures forall j <- Bits(x) :: j < 8
  {
    Pow2Eight();
    BitsFromRange(x, 0, 8);
  }

  lemma Pow2Eight()
    ensures Pow2(8) == 256
  {
    assert Pow2(2) == 4;
    assert Pow2(4) == 16;
    assert Pow2(6) == 64;
  }

  // ---------- the definition ----------

  /** The register moved up by one; a one that falls out takes the polynomial off. */
  function Step(c: Word): Word {
    if 15 in c then Xor(Up(c, 1), {12, 5, 0}) else Up(c, 1)
  }

  function Steps(c: Word, n: nat): Word
    decreases n, c
  {
    if n == 0 then c else Step(Steps(c, n - 1))
  }

  /** One message bit enters at the top of the register. */
  function Enter(c: Word, bit: bool): Word {
    Step(if bit then Xor(c, {15}) else c)
  }

  /** The first n bits of a byte, most significant first. */
  function Serial(c: Word, b: Word, n: nat): Word
    requires n <= 8
    decreases n, c
  {
    if n == 0 then c else Enter(Serial(c, b, n - 1), 8 - n in b)
  }

  /** The checksum of a string, bit by bit. */
  function Crc(s: Bytes): Word {
    if s == [] then {} else Serial(Crc(s[..|s| - 1]), Bits(s[|s| - 1]), 8)
  }

  // ---------- linearity ----------

  lemma InXor(a: Word, b: Word, k: nat)
    ensures k in Xor(a, b) <==> (k in a) != (k in b)
  {}

  lemma InUp(c: Word, n: nat, k: nat)
    ensures k in Up(c, n) <==> k < 16 && k >= n && k - n in c
  {}

  lemma InStep(c: Word, k: nat)
    ensures k in Step(c) <==> k < 16 && (k > 0 && k - 1 in c) != (15 in c && k in {12, 5, 0})
  {
    InUp(c, 1, k);
    InXor(Up(c, 1), {12, 5, 0}, k);
  }

  lemma StepXor(a: Word, b: Word)
    ensures Step(Xor(a, b)) == Xor(Step(a), Step(b))
  {
    forall k: nat ensures k in Step(Xor(a, b)) <==> k in Xor(Step(a), Step(b)) {
      InStep(Xor(a, b), k);
      InStep(a, k);
      InStep(b, k);
      InXor(Step(a), Step(b), k);
      InXor(a, b, 15);
      if k > 0 { InXor(a, b, k - 1); }
    }
  }

  lemma StepXorBy(c: Word, a: Word, b: Word)
    requires c == Xor(a, b)
    ensures Step(c) == Xor(Step(a), Step(b))
  {
    StepXor(a, b);
  }

  lemma {:induction false} StepsXor(a: Word, b: Word, n: nat)
    ensures Steps(Xor(a, b), n) == Xor(Steps(a, n), Steps(b, n))
  {
    if n > 0 {
      StepsXor(a, b, n - 1);
      StepXorBy(Steps(Xor(a, b), n - 1), Steps(a, n - 1), Steps(b, n - 1));
    }
  }

  /** While nothing falls out, stepping is shifting. */
  lemma {:induction false} StepsShift(c: Word, n: nat)
    requires forall k <- c :: k + n < 16
    ensures Steps(c, n) == Up(c, n)
  {
    if n > 0 {
      StepsShift(c, n - 1);
      forall k: nat ensures k in Up(Up(c, n - 1), 1) <==> k in Up(c, n) {
        InUp(Up(c, n - 1), 1, k);
        InUp(c, n, k);
        if k > 0 { InUp(c, n - 1, k - 1); }
      }
      InUp(c, n - 1, 15);
    }
  }

  // ---------- a byte at once ----------

  /** The first n bits of a byte, moved to the top of the register. */
  function Top(b: Word, n: nat): Word
    requires n <= 8
  {
    set k | k in b && 8 - n <= k < 8 :: k + 8
  }

  lemma XorAssoc(a: Word, b: Word, c: Word)
    ensures Xor(Xor(a, b), c) == Xor(a, Xor(b, c)) && Xor(a, {}) == a
  {}

  lemma TopGrows(b: Word, n: nat)
    requires 0 < n <= 8
    ensures Top(b, n) == if 8 - n in b then Xor(Top(b, n - 1), {16 - n}) else Top(b, n - 1)
  {
    var t := Top(b, n);
    forall k: nat ensures k in t <==> k in Top(b, n - 1) || (k == 16 - n && 8 - n in b) {
      assert k >= 8 ==> (k in t <==> k - 8 in b && 16 - n <= k < 16);
    }
  }

  /** A bit put in n places down is at the top when its turn to enter comes. */
  lemma {:induction false} OneBit(c: Word, n: nat)
    requires 0 < n <= 8
    ensures Enter(Steps(c, n - 1), true) == Steps(Xor(c, {16 - n}), n)
  {
    StepsXor(c, {16 - n}, n - 1);
    StepsShift({16 - n}, n - 1);
    assert Up({16 - n}, n - 1) == {15};
  }

  /** Bits entering one by one may as well be put in all at once. */
  lemma {:induction false} SerialIsSteps(c: Word, b: Word, n: nat)
    requires n <= 8
    ensures Serial(c, b, n) == Steps(Xor(c, Top(b, n)), n)
  {
    if n == 0 {
      assert Top(b, 0) == {};
      XorAssoc(c, {}, {});
    } else {
      SerialIsSteps(c, b, n - 1);
      TopGrows(b, n);
      if 8 - n in b {
        XorAssoc(c, Top(b, n - 1), {16 - n});
        OneBit(Xor(c, Top(b, n - 1)), n);
      }
    }
  }

  // ---------- the table ----------

  /** The table entry for a byte. */
  function Entry(b: Word): Word {
    Steps(Up(b, 8), 8)
  }

  /** A sixteen-bit register. */
  predicate Sixteen(c: Word) {
    forall k <- c :: k < 16
  }

  lemma SplitRegister(c: Word, b: Word)
    requires Sixteen(c) && forall k <- b :: k < 8
    ensures var low := set k | k in c && k < 8;
            && Xor(c, Top(b, 8)) == Xor(low, Up(Xor(Down(c, 8), b), 8))
            && Up(low, 8) == Up(c, 8)
  {
    var low := set k | k in c && k < 8;
    forall k: nat ensures k in Xor(c, Top(b, 8)) <==> k in Xor(low, Up(Xor(Down(c, 8), b), 8)) {
      assert k >= 8 ==> (k in Top(b, 8) <==> k - 8 in b);
      assert k >= 8 ==> (k - 8 in Down(c, 8) <==> k in c);
      InUp(Xor(Down(c, 8), b), 8, k);
    }
    forall k: nat ensures k in Up(low, 8) <==> k in Up(c, 8) {
      InUp(low, 8, k);
      InUp(c, 8, k);
    }
  }

  /** Moving the low byte up and looking the rest up is taking eight bits in. */
  lemma {:induction false} TableStep(c: Word, b: Word)
    requires Sixteen(c) && forall k <- b :: k < 8
    ensures Xor(Up(c, 8), Entry(Xor(Down(c, 8), b))) == Serial(c, b, 8)
  {
    var low := set k | k in c && k < 8;
    SerialIsSteps(c, b, 8);
    SplitRegister(c, b);
    StepsXor(low, Up(Xor(Down(c, 8), b), 8), 8);
    StepsShift(low, 8);
  }

  lemma {:induction false} CrcIsSixteen(s: Bytes)
    ensures Sixteen(Crc(s))
  {
    if s != [] {
      var c := Serial(Crc(s[..|s| - 1]), Bits(s[|s| - 1]), 7);
      forall k <- Crc(s) ensures k < 16 {
        InStep(if 0 in Bits(s[|s| - 1]) then Xor(c, {15}) else c, k);
      }
    }
  }

  // ---------- the code ----------

  ghost predicate IsTable(tab: seq<Word>) {
    |tab| == 256 && forall i: Byte :: tab[i] == Entry(Bits(i))
  }

  method ComputeEntry(i: Byte) returns (crc: Word)
    ensures crc == Entry(Bits(i))
  {
    crc := Up(Bits(i), 8);
    for j := 0 to 8
      invariant crc == Steps(Up(Bits(i), 8), j)
    {
      if 15 in crc { crc := Xor(Up(crc, 1), {12, 5, 0}); } else { crc := Up(crc, 1); }
    }
  }

  method BuildTable() returns (tab: array<Word>)
    ensures fresh(tab) && IsTable(tab[..])
  {
    tab := new Word[256](_ => {});
    for i := 0 to 256
      invariant forall k: Byte | k < i :: tab[k] == Entry(Bits(k))
    {
      tab[i] := ComputeEntry(i);
    }
  }

  /** The byte of the table index: the high register byte and the message byte. */
  function Index(crc: Word, b: Byte): nat {
    Number(Xor(Down(crc, 8), Bits(b)), 0, 8)
  }

  lemma {:induction false} IndexFacts(crc: Word, b: Byte)
    requires Sixteen(crc)
    ensures Index(crc, b) < 256 && Bits(Index(crc, b)) == Xor(Down(crc, 8), Bits(b))
    ensures forall k <- Bits(b) :: k < 8
  {
    var x := Xor(Down(crc, 8), Bits(b));
    BitsBelowEight(b);
    Pow2Eight();
    NumberBound(x, 0, 8);
    BitsOfNumber(x, 0, 8);
  }

  /** The table-driven checksum is the bit-by-bit one, for every string. */
  method Crc16(tab: array<Word>, s: Bytes) returns (crc: Word)
    requires IsTable(tab[..])
    ensures crc == Crc(s)
  {
    crc := {};
    for i := 0 to |s|
      invariant crc == Crc(s[..i])
    {
      assert s[..i + 1][..i] == s[..i];
      CrcIsSixteen(s[..i]);
      IndexFacts(crc, s[i]);
      TableStep(crc, Bits(s[i]));
      var k := Index(crc, s[i]);
      assert tab[..][k] == Entry(Bits(k));
      crc := Xor(Up(crc, 8), tab[k]);
    }
    assert s[..|s|] == s;
  }
}
