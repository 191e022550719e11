/** Every cluster slot is the slot of some seven-digit decimal number.

    The checksum is a linear map: it is the exclusive-or, over the one bits of the message,
    of the powers of x modulo the polynomial. Among the three low bits of six digits there
    is, for each slot bit, a choice of bits whose powers differ in that slot bit alone. */
module SlotRange {
  import opened Octets
  import opened Crc16

  // ---------- the checksum as a sum of powers ----------

  /** ps[e] is x^e modulo the polynomial. */
  ghost predicate Powers(ps: seq<Word>) {
    |ps| > 0 && ps[0] == {0} && forall e | 0 < e < |ps| :: ps[e] == Step(ps[e - 1])
  }

  lemma {:induction false} PowersExist(n: nat) returns (ps: seq<Word>)
    ensures |ps| == n + 1 && Powers(ps)
  {
    if n == 0 {
      ps := [{0}];
    } else {
      var qs := PowersExist(n - 1);
      ps := qs + [Step(qs[n - 1])];
    }
  }

  /** The sum of the powers below n with exponents in m. */
  function Sum(ps: seq<Word>, m: Word, n: nat): Word
    requires n <= |ps|
    decreases n, m
  {
    if n == 0 then {}
    else if n - 1 in m then Xor(Sum(ps, m, n - 1), ps[n - 1])
    else Sum(ps, m, n - 1)
  }

  lemma XorSwap(a: Word, b: Word, p: Word)
    ensures Xor(Xor(a, p), b) == Xor(Xor(a, b), p)
    ensures Xor(a, Xor(b, p)) == Xor(Xor(a, b), p)
    ensures Xor(Xor(a, p), Xor(b, p)) == Xor(a, b)
  {}

  lemma {:induction false} SumXor(ps: seq<Word>, a: Word, b: Word, n: nat)
    requires n <= |ps|
    ensures Sum(ps, Xor(a, b), n) == Xor(Sum(ps, a, n), Sum(ps, b, n))
    decreases n
  {
    if n > 0 {
      SumXor(ps, a, b, n - 1);
      InXor(a, b, n - 1);
      XorSwap(Sum(ps, a, n - 1), Sum(ps, b, n - 1), ps[n - 1]);
    }
  }

  lemma {:induction false} SumNothing(ps: seq<Word>, m: Word, n: nat)
    requires n <= |ps| && forall e <- m :: e >= n
    ensures Sum(ps, m, n) == {}
    decreases n
  {
    if n > 0 { SumNothing(ps, m, n - 1); }
  }

  lemma {:induction false} SumMore(ps: seq<Word>, m: Word, n: nat, more: nat)
    requires n <= more <= |ps| && forall e <- m :: e < n
    ensures Sum(ps, m, more) == Sum(ps, m, n)
    decreases more
  {
    if n < more { SumMore(ps, m, n, more - 1); }
  }

  lemma {:induction false} SumOne(ps: seq<Word>, e: nat, n: nat)
    requires e < n <= |ps|
    ensures Sum(ps, {e}, n) == ps[e]
  {
    SumMore(ps, {e}, e + 1, n);
    SumNothing(ps, {e}, e);
    XorAssoc({}, ps[e], {});
  }

  /** Below the register's width a power is its own bit. */
  lemma {:induction false} SmallPower(ps: seq<Word>, e: nat)
    requires Powers(ps) && e < |ps| && e < 16
    ensures ps[e] == {e}
  {
    if e > 0 {
      SmallPower(ps, e - 1);
      assert Up(ps[e - 1], 1) == {e};
    }
  }

  lemma {:induction false} SumSmall(ps: seq<Word>, m: Word, n: nat)
    requires Powers(ps) && n <= 16 && n <= |ps|
    ensures Sum(ps, m, n) == set e | e in m && e < n
    decreases n
  {
    if n > 0 {
      SumSmall(ps, m, n - 1);
      SmallPower(ps, n - 1);
    }
  }

  function Later(m: Word, d: nat): Word {
    set e | e in m :: e + d
  }

  lemma InLater(m: Word, d: nat, e: nat)
    ensures e + d in Later(m, d) <==> e in m
  {}

  /** A step raises every exponent. */
  lemma {:induction false} SumStep(ps: seq<Word>, m: Word, n: nat)
    requires Powers(ps) && n < |ps|
    ensures Sum(ps, Later(m, 1), n + 1) == Step(Sum(ps, m, n))
    decreases n
  {
    if n == 0 {
      SumNothing(ps, Later(m, 1), 1);
      assert Up({}, 1) == {};
    } else {
      SumStep(ps, m, n - 1);
      InLater(m, 1, n - 1);
      StepXor(Sum(ps, m, n - 1), ps[n - 1]);
    }
  }

  lemma {:induction false} SumLater(ps: seq<Word>, m: Word, n: nat, d: nat)
    requires Powers(ps) && n + d <= |ps|
    ensures Sum(ps, Later(m, d), n + d) == Steps(Sum(ps, m, n), d)
    decreases d
  {
    if d == 0 {
      assert Later(m, 0) == m;
    } else {
      SumLater(ps, m, n, d - 1);
      SumStep(ps, Later(m, d - 1), n + d - 1);
      LaterOnce(m, d);
    }
  }

  lemma LaterOnce(m: Word, d: nat)
    requires d > 0
    ensures Later(Later(m, d - 1), 1) == Later(m, d)
  {
    forall e: nat ensures e in Later(Later(m, d - 1), 1) <==> e in Later(m, d) {
      if e >= 1 { InLater(Later(m, d - 1), 1, e - 1); }
      if e >= d { InLater(m, d, e - d); InLater(m, d - 1, e - d); }
    }
  }

  /** The exponents of a message's one bits. */
  function Exponents(s: Bytes): Word {
    if s == [] then {} else Later(Xor(Exponents(s[..|s| - 1]), Top(Bits(s[|s| - 1]), 8)), 8)
  }

  lemma {:induction false} InExponents(s: Bytes, e: nat)
    ensures e in Exponents(s) <==>
            e >= 16 && (e - 16) / 8 < |s| && (e - 16) % 8 in Bits(s[|s| - 1 - (e - 16) / 8])
  {
    if s != [] {
      var init, b := s[..|s| - 1], Bits(s[|s| - 1]);
      assert e in Exponents(s) <==> e >= 8 && e - 8 in Xor(Exponents(init), Top(b, 8));
      if e >= 8 {
        InExponents(init, e - 8);
        InXor(Exponents(init), Top(b, 8), e - 8);
        assert e - 8 in Top(b, 8) <==> 8 <= e - 8 < 16 && e - 16 in b;
      }
    }
  }

  /** One more byte: eight further steps of the sum with the byte's bits put in. */
  lemma {:induction false} SumTakesByte(ps: seq<Word>, m: Word, b: Word, n: nat)
    requires Powers(ps) && 16 <= n && n + 8 <= |ps|
    ensures Serial(Sum(ps, m, n), b, 8) == Sum(ps, Later(Xor(m, Top(b, 8)), 8), n + 8)
  {
    var top := Top(b, 8);
    SerialIsSteps(Sum(ps, m, n), b, 8);
    assert Sum(ps, top, n) == top by {
      SumSmall(ps, top, 16);
      SumMore(ps, top, 16, n);
    }
    SumXor(ps, m, top, n);
    SumLater(ps, Xor(m, top), n, 8);
  }

  lemma {:induction false} CrcIsSum(ps: seq<Word>, s: Bytes)
    requires Powers(ps) && 16 + 8 * |s| <= |ps|
    ensures Crc(s) == Sum(ps, Exponents(s), 16 + 8 * |s|)
    decreases |s|
  {
    if s == [] {
      SumNothing(ps, Exponents(s), 16);
    } else {
      CrcIsSum(ps, s[..|s| - 1]);
      SumTakesByte(ps, Exponents(s[..|s| - 1]), Bits(s[|s| - 1]), 8 + 8 * |s|);
    }
  }

  // ---------- digits ----------

  /** A bit a digit may choose: one of the three low bits of the last six. */
  predicate Free(e: nat) {
    16 <= e < 64 && e % 8 < 3
  }

  /** A one bit of the number 1000000, which every seven-digit string here shares. */
  predicate Fixed(e: nat) {
    e == 64 || (16 <= e < 72 && e % 8 in {4, 5})
  }

  ghost predicate Digits(m: Word) {
    forall e: nat :: !Free(e) ==> (e in m <==> Fixed(e))
  }

  function Digit(m: Word, j: nat): Byte
  {
    48 + One(j in m) + 2 * One(j + 1 in m) + 4 * One(j + 2 in m)
  }

  lemma DigitBits(m: Word, j: nat, k: nat)
    ensures k in Bits(Digit(m, j)) <==> k in {4, 5} || (k < 3 && j + k in m)
  {
    var x := Digit(m, j);
    var y := 24 + One(j + 1 in m) + 2 * One(j + 2 in m);
    var z := 12 + One(j + 2 in m);
    assert BitsFrom(x, 0) == BitsFrom(y, 1) + if j in m then {0} else {};
    assert BitsFrom(y, 1) == BitsFrom(z, 2) + if j + 1 in m then {1} else {};
    assert BitsFrom(z, 2) == BitsFrom(6, 3) + if j + 2 in m then {2} else {};
    assert BitsFrom(6, 3) == {4, 5};
  }

  /** The digits whose bits are m. */
  function Message(m: Word): Bytes {
    seq(7, i requires 0 <= i < 7 => if i == 0 then 49 else Digit(m, 64 - 8 * i))
  }

  lemma MessageHasBits(m: Word)
    requires Digits(m)
    ensures Exponents(Message(m)) == m
  {
    forall e: nat ensures e in Exponents(Message(m)) <==> e in m {
      InExponents(Message(m), e);
      if 16 <= e < 72 {
        var q := (e - 16) / 8;
        DigitBits(m, 16 + 8 * q, (e - 16) % 8);
        DigitBits({0}, 0, (e - 16) % 8);
      }
    }
  }

  // ---------- powers ----------

  /** Bit k of x^e, for the exponents a free bit can have and those in between. */
  predicate PowerBit(e: nat, k: nat) {
    match e
    case 16 => k == 12 || k == 5 || k == 0
    case 17 => k == 13 || k == 6 || k == 1
    case 18 => k == 14 || k == 7 || k == 2
    case 19 => k == 15 || k == 8 || k == 3
    case 20 => k == 12 || k == 9 || k == 5 || k == 4 || k == 0
    case 21 => k == 13 || k == 10 || k == 6 || k == 5 || k == 1
    case 22 => k == 14 || k == 11 || k == 7 || k == 6 || k == 2
    case 23 => k == 15 || k == 12 || k == 8 || k == 7 || k == 3
    case 24 => k == 13 || k == 12 || k == 9 || k == 8 || k == 5 || k == 4 || k == 0
    case 25 => k == 14 || k == 13 || k == 10 || k == 9 || k == 6 || k == 5 || k == 1
    case 26 => k == 15 || k == 14 || k == 11 || k == 10 || k == 7 || k == 6 || k == 2
    case 27 => k == 15 || k == 11 || k == 8 || k == 7 || k == 5 || k == 3 || k == 0
    case 28 => k == 9 || k == 8 || k == 6 || k == 5 || k == 4 || k == 1 || k == 0
    case 29 => k == 10 || k == 9 || k == 7 || k == 6 || k == 5 || k == 2 || k == 1
    case 30 => k == 11 || k == 10 || k == 8 || k == 7 || k == 6 || k == 3 || k == 2
    case 31 => k == 12 || k == 11 || k == 9 || k == 8 || k == 7 || k == 4 || k == 3
    case 32 => k == 13 || k == 12 || k == 10 || k == 9 || k == 8 || k == 5 || k == 4
    case 33 => k == 14 || k == 13 || k == 11 || k == 10 || k == 9 || k == 6 || k == 5
    case 34 => k == 15 || k == 14 || k == 12 || k == 11 || k == 10 || k == 7 || k == 6
    case 35 => k == 15 || k == 13 || k == 11 || k == 8 || k == 7 || k == 5 || k == 0
    case 36 => k == 14 || k == 9 || k == 8 || k == 6 || k == 5 || k == 1 || k == 0
    case 37 => k == 15 || k == 10 || k == 9 || k == 7 || k == 6 || k == 2 || k == 1
    case 38 => k == 12 || k == 11 || k == 10 || k == 8 || k == 7 || k == 5 || k == 3 || k == 2 || k == 0
    case 39 => k == 13 || k == 12 || k == 11 || k == 9 || k == 8 || k == 6 || k == 4 || k == 3 || k == 1
    case 40 => k == 14 || k == 13 || k == 12 || k == 10 || k == 9 || k == 7 || k == 5 || k == 4 || k == 2
    case 41 => k == 15 || k == 14 || k == 13 || k == 11 || k == 10 || k == 8 || k == 6 || k == 5 || k == 3
    case 42 => k == 15 || k == 14 || k == 11 || k == 9 || k == 7 || k == 6 || k == 5 || k == 4 || k == 0
    case 43 => k == 15 || k == 10 || k == 8 || k == 7 || k == 6 || k == 1 || k == 0
    case 44 => k == 12 || k == 11 || k == 9 || k == 8 || k == 7 || k == 5 || k == 2 || k == 1 || k == 0
    case 45 => k == 13 || k == 12 || k == 10 || k == 9 || k == 8 || k == 6 || k == 3 || k == 2 || k == 1
    case 46 => k == 14 || k == 13 || k == 11 || k == 10 || k == 9 || k == 7 || k == 4 || k == 3 || k == 2
    case 47 => k == 15 || k == 14 || k == 12 || k == 11 || k == 10 || k == 8 || k == 5 || k == 4 || k == 3
    case 48 => k == 15 || k == 13 || k == 11 || k == 9 || k == 6 || k == 4 || k == 0
    case 49 => k == 14 || k == 10 || k == 7 || k == 1 || k == 0
    case 50 => k == 15 || k == 11 || k == 8 || k == 2 || k == 1
    case 51 => k == 9 || k == 5 || k == 3 || k == 2 || k == 0
    case 52 => k == 10 || k == 6 || k == 4 || k == 3 || k == 1
    case 53 => k == 11 || k == 7 || k == 5 || k == 4 || k == 2
    case 54 => k == 12 || k == 8 || k == 6 || k == 5 || k == 3
    case 55 => k == 13 || k == 9 || k == 7 || k == 6 || k == 4
    case 56 => k == 14 || k == 10 || k == 8 || k == 7 || k == 5
    case 57 => k == 15 || k == 11 || k == 9 || k == 8 || k == 6
    case 58 => k == 10 || k == 9 || k == 7 || k == 5 || k == 0
    case _ => false
  }

  /** What one step makes of bit k. */
  predicate Follows(e: nat, k: nat) {
    PowerBit(e + 1, k) <==>
      k < 16 && (k > 0 && PowerBit(e, k - 1)) != (PowerBit(e, 15) && (k == 12 || k == 5 || k == 0))
  }

  lemma FollowsEarly(e: nat, k: nat)
    requires 16 <= e < 37
    ensures Follows(e, k)
  {}

  lemma FollowsLate(e: nat, k: nat)
    requires 37 <= e < 58
    ensures Follows(e, k)
  {}

  lemma {:induction false} PowerHasBit(ps: seq<Word>, e: nat, k: nat)
    requires Powers(ps) && 16 <= e < 59 && e < |ps|
    ensures k in ps[e] <==> PowerBit(e, k)
    decreases e
  {
    InStep(ps[e - 1], k);
    if e == 16 {
      SmallPower(ps, 15);
    } else {
      if k > 0 { PowerHasBit(ps, e - 1, k - 1); }
      PowerHasBit(ps, e - 1, 15);
      if e - 1 < 37 { FollowsEarly(e - 1, k); } else { FollowsLate(e - 1, k); }
    }
  }

  // ---------- one slot bit at a time ----------

  /** A list of exponents. */
  datatype Picks = End | Pick(e: nat, rest: Picks)

  predicate AllFree(p: Picks) {
    match p
    case End => true
    case Pick(e, rest) => Free(e) && AllFree(rest)
  }

  /** Bit j of the sum of the listed powers. */
  predicate Odd(p: Picks, j: nat)
    decreases p
  {
    match p
    case End => false
    case Pick(e, rest) => PowerBit(e, j) != Odd(rest, j)
  }

  /** Free bits whose powers together change slot bit k and no other slot bit. */
  function Choice(k: nat): Picks {
    match k
    case 0 => Pick(17, Pick(32, Pick(33, Pick(40, Pick(50, Pick(58, End))))))
    case 1 => Pick(24, Pick(25, Pick(33, Pick(40, Pick(49, Pick(50, End))))))
    case 2 => Pick(18, Pick(25, Pick(32, Pick(33, Pick(40, Pick(50, End))))))
    case 3 => Pick(17, Pick(32, Pick(40, Pick(41, Pick(50, Pick(56, End))))))
    case 4 => Pick(18, Pick(26, Pick(42, Pick(58, End))))
    case 5 => Pick(24, Pick(33, Pick(34, Pick(42, Pick(57, End)))))
    case 6 => Pick(16, Pick(24, Pick(25, Pick(42, Pick(49, Pick(57, End))))))
    case 7 => Pick(25, Pick(32, Pick(33, Pick(40, Pick(50, End)))))
    case 8 => Pick(18, Pick(32, Pick(40, End)))
    case 9 => Pick(17, Pick(18, Pick(33, Pick(50, Pick(56, End)))))
    case 10 => Pick(17, Pick(24, Pick(33, Pick(40, Pick(50, Pick(58, End))))))
    case 11 => Pick(24, Pick(40, Pick(49, Pick(50, End))))
    case 12 => Pick(17, Pick(18, Pick(24, Pick(42, Pick(50, End)))))
    case _ => Pick(25, Pick(32, Pick(40, Pick(50, Pick(56, Pick(57, End))))))
  }

  lemma ChoiceIsFree(k: nat)
    ensures AllFree(Choice(k))
  {}

  lemma {:induction false} Alone0(j: nat) requires j < 14 ensures Odd(Choice(0), j) <==> j == 0 {}
  lemma {:induction false} Alone1(j: nat) requires j < 14 ensures Odd(Choice(1), j) <==> j == 1 {}
  lemma {:induction false} Alone2(j: nat) requires j < 14 ensures Odd(Choice(2), j) <==> j == 2 {}
  lemma {:induction false} Alone3(j: nat) requires j < 14 ensures Odd(Choice(3), j) <==> j == 3 {}
  lemma {:induction false} Alone4(j: nat) requires j < 14 ensures Odd(Choice(4), j) <==> j == 4 {}
  lemma {:induction false} Alone5(j: nat) requires j < 14 ensures Odd(Choice(5), j) <==> j == 5 {}
  lemma {:induction false} Alone6(j: nat) requires j < 14 ensures Odd(Choice(6), j) <==> j == 6 {}
  lemma {:induction false} Alone7(j: nat) requires j < 14 ensures Odd(Choice(7), j) <==> j == 7 {}
  lemma {:induction false} Alone8(j: nat) requires j < 14 ensures Odd(Choice(8), j) <==> j == 8 {}
  lemma {:induction false} Alone9(j: nat) requires j < 14 ensures Odd(Choice(9), j) <==> j == 9 {}
  lemma {:induction false} Alone10(j: nat) requires j < 14 ensures Odd(Choice(10), j) <==> j == 10 {}
  lemma {:induction false} Alone11(j: nat) requires j < 14 ensures Odd(Choice(11), j) <==> j == 11 {}
  lemma {:induction false} Alone12(j: nat) requires j < 14 ensures Odd(Choice(12), j) <==> j == 12 {}
  lemma {:induction false} Alone13(j: nat) requires j < 14 ensures Odd(Choice(13), j) <==> j == 13 {}

  lemma {:induction false} ChoiceIsAlone(k: nat, j: nat)
    requires k < 14 && j < 14
    ensures Odd(Choice(k), j) <==> j == k
  {
    match k
    case 0 => Alone0(j);
    case 1 => Alone1(j);
    case 2 => Alone2(j);
    case 3 => Alone3(j);
    case 4 => Alone4(j);
    case 5 => Alone5(j);
    case 6 => Alone6(j);
    case 7 => Alone7(j);
    case 8 => Alone8(j);
    case 9 => Alone9(j);
    case 10 => Alone10(j);
    case 11 => Alone11(j);
    case 12 => Alone12(j);
    case _ => Alone13(j);
  }

  /** The message bits with the listed ones inverted. */
  function Toggled(m: Word, p: Picks): Word
    decreases p
  {
    match p
    case End => m
    case Pick(e, rest) => Toggled(Xor(m, {e}), rest)
  }

  lemma {:induction false} ToggledDigits(m: Word, p: Picks)
    requires Digits(m) && AllFree(p)
    ensures Digits(Toggled(m, p))
    decreases p
  {
    match p
    case End =>
    case Pick(e, rest) =>
      forall i: nat ensures !Free(i) ==> (i in Xor(m, {e}) <==> Fixed(i)) { InXor(m, {e}, i); }
      ToggledDigits(Xor(m, {e}), rest);
  }

  lemma {:induction false} ToggledSum(ps: seq<Word>, m: Word, p: Picks, j: nat)
    requires Powers(ps) && |ps| >= 72 && AllFree(p)
    ensures j in Sum(ps, Toggled(m, p), 72) <==> (j in Sum(ps, m, 72)) != Odd(p, j)
    decreases p
  {
    match p
    case End =>
    case Pick(e, rest) =>
      ToggledSum(ps, Xor(m, {e}), rest, j);
      SumXor(ps, m, {e}, 72);
      SumOne(ps, e, 72);
      InXor(Sum(ps, m, 72), ps[e], j);
      PowerHasBit(ps, e, j);
  }

  /** Message bits whose sum has the slot bits of t below k, and those of m from k on. */
  lemma {:induction false} SlotBits(ps: seq<Word>, m: Word, t: Word, k: nat) returns (r: Word)
    requires Powers(ps) && |ps| >= 72 && Digits(m) && k <= 14
    ensures Digits(r)
    ensures forall j: nat | j < 14 :: j in Sum(ps, r, 72) <==> j in if j < k then t else Sum(ps, m, 72)
    decreases k
  {
    if k == 0 { return m; }
    var q := SlotBits(ps, m, t, k - 1);
    if k - 1 in t <==> k - 1 in Sum(ps, m, 72) { return q; }
    ChoiceIsFree(k - 1);
    r := Toggled(q, Choice(k - 1));
    ToggledDigits(q, Choice(k - 1));
    forall j: nat | j < 14 ensures j in Sum(ps, r, 72) <==> j in if j < k then t else Sum(ps, m, 72) {
      ToggledSum(ps, q, Choice(k - 1), j);
      ChoiceIsAlone(k - 1, j);
    }
  }

  /** The bits of 1000000. */
  ghost function AllZeros(): (m: Word)
    ensures Digits(m)
  {
    set e | 16 <= e < 72 && Fixed(e)
  }

  lemma MessageIsDigits(m: Word)
    ensures forall b <- Message(m) :: IsDigit(b)
  {}

  predicate IsDigit(b: Byte) {
    48 <= b < 58
  }

  /** Any fourteen slot bits are those of the checksum of a seven-digit number. */
  lemma {:induction false} EverySlotIsHit(t: Word) returns (s: Bytes)
    ensures |s| == 7 && s[0] != 48 && (forall b <- s :: IsDigit(b))
    ensures forall j: nat | j < 14 :: j in Crc(s) <==> j in t
  {
    var ps := PowersExist(71);
    var r := SlotBits(ps, AllZeros(), t, 14);
    s := Message(r);
    MessageHasBits(r);
    CrcIsSum(ps, s);
    MessageIsDigits(r);
  }
}
