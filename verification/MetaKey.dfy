/** Metadata keys beside data keys: a metadata key hashes to its data key's cluster slot
    and names its data key.

    A key's slot is the checksum of its hash tag modulo 16384. The metadata key wraps a
    canonical tag of that slot, the first decimal number that hashes to it, in braces and
    appends the whole data key. */
module MetaKey {
  import opened Rows
  import opened Octets
  import opened Crc16
  import SlotRange

  const OPEN: Byte := 123
  const CLOSE: Byte := 125
  const PREFIX: Bytes := [0, 114, 99, 58, 109, 58]
  const HASH_SLOTS: nat := 16384

  // ---------- hash tags ----------

  /** The first position of b, or -1. */
  function IndexByte(s: Bytes, b: Byte): (i: int)
    ensures -1 <= i < |s|
    ensures i >= 0 ==> s[i] == b && b !in s[..i]
    ensures i < 0 ==> b !in s
  {
    if s == [] then -1
    else if s[0] == b then 0
    else
      var r := IndexByte(s[1..], b);
      if r < 0 then assert s == [s[0]] + s[1..]; -1
      else assert s[..r + 1] == [s[0]] + s[1..][..r]; r + 1
  }

  function SlotTag(key: Bytes): Bytes {
    var open := IndexByte(key, OPEN);
    if open < 0 then key
    else
      var end := IndexByte(key[open + 1..], CLOSE);
      if end <= 0 then key else key[open + 1..open + 1 + end]
  }

  /** Section "Hash tags" of the Redis Cluster Specification: the first opening brace at i,
      the first closing brace to its right at j, and something in between. */
  ghost predicate TagAt(key: Bytes, i: nat, j: nat) {
    && i + 1 < j < |key| && key[i] == OPEN && OPEN !in key[..i]
    && key[j] == CLOSE && CLOSE !in key[i + 1..j]
  }

  lemma {:induction false} FirstIsUnique(s: Bytes, b: Byte, i: nat)
    requires i < |s| && s[i] == b && b !in s[..i]
    ensures IndexByte(s, b) == i
  {
    assert s[i] in s;
  }

  /** The tag is the part the specification hashes: between the braces when there is such
      a part, otherwise the whole key. */
  lemma SlotTagIsHashTag(key: Bytes, i: nat, j: nat)
    ensures TagAt(key, i, j) ==> SlotTag(key) == key[i + 1..j]
    ensures SlotTag(key) == key || exists a: nat, b: nat :: TagAt(key, a, b) && SlotTag(key) == key[a + 1..b]
  {
    if TagAt(key, i, j) {
      FirstIsUnique(key, OPEN, i);
      assert key[i + 1..][..j - i - 1] == key[i + 1..j];
      FirstIsUnique(key[i + 1..], CLOSE, j - i - 1);
    }
    var open := IndexByte(key, OPEN);
    if open >= 0 {
      var end := IndexByte(key[open + 1..], CLOSE);
      if end > 0 {
        assert key[open + 1..][..end] == key[open + 1..open + 1 + end];
        assert TagAt(key, open, open + 1 + end);
      }
    }
  }

  /** The checksum as a number, modulo the slot count. */
  function Slot(tag: Bytes): (s: nat)
    ensures s < HASH_SLOTS
  {
    Number(Crc(tag), 0, 16) % HASH_SLOTS
  }

  function SlotOf(key: Bytes): (s: nat)
    ensures s < HASH_SLOTS
  {
    Slot(SlotTag(key))
  }

  // ---------- canonical tags ----------

  /** A number in decimal. */
  function Decimal(n: nat): Bytes {
    (if n < 10 then [] else Decimal(n / 10)) + [48 + n % 10]
  }

  lemma {:induction false} DecimalIsBraceFree(n: nat)
    ensures Decimal(n) != [] && OPEN !in Decimal(n) && CLOSE !in Decimal(n)
  {
    if n >= 10 { DecimalIsBraceFree(n / 10); }
  }

  /** The first number below n that hashes to the slot, if any. */
  ghost predicate FirstHit(slot: nat, n: nat, i: nat) {
    i < n && Slot(Decimal(i)) == slot && forall k: nat | k < i :: Slot(Decimal(k)) != slot
  }

  /** A slot's entry after trying all numbers below n: its first hit, or nothing. */
  ghost predicate EntryOk(tag: Bytes, slot: nat, n: nat) {
    if tag == [] then forall k: nat | k < n :: Slot(Decimal(k)) != slot
    else exists i: nat :: FirstHit(slot, n, i) && tag == Decimal(i)
  }

  ghost predicate TagsAfter(tags: seq<Bytes>, n: nat) {
    |tags| == HASH_SLOTS && forall s | 0 <= s < |tags| :: EntryOk(tags[s], s, n)
  }

  /** A brace-free string that hashes to the slot. */
  ghost predicate IsTag(tag: Bytes, slot: nat) {
    tag != [] && OPEN !in tag && CLOSE !in tag && Slot(tag) == slot
  }

  ghost predicate GoodTags(tags: seq<Bytes>) {
    |tags| == HASH_SLOTS && forall s | 0 <= s < |tags| :: IsTag(tags[s], s)
  }

  lemma HitIsTag(tag: Bytes, slot: nat, n: nat)
    requires EntryOk(tag, slot, n) && tag != []
    ensures IsTag(tag, slot)
  {
    var i: nat :| FirstHit(slot, n, i) && tag == Decimal(i);
    DecimalIsBraceFree(i);
  }

  function CountFilled(tags: seq<Bytes>): nat {
    if tags == [] then 0 else CountFilled(tags[..|tags| - 1]) + if tags[|tags| - 1] == [] then 0 else 1
  }

  lemma {:induction false} CountFilledFacts(tags: seq<Bytes>)
    ensures CountFilled(tags) <= |tags|
    ensures CountFilled(tags) == |tags| <==> forall s | 0 <= s < |tags| :: tags[s] != []
  {
    if tags != [] {
      var n := |tags| - 1;
      CountFilledFacts(tags[..n]);
      assert forall s | 0 <= s < n :: tags[s] == tags[..n][s];
    }
  }

  lemma {:induction false} FillOne(tags: seq<Bytes>, s: nat, tag: Bytes)
    requires s < |tags| && tags[s] == [] && tag != []
    ensures CountFilled(tags[s := tag]) == CountFilled(tags) + 1
  {
    var n := |tags| - 1;
    if s < n {
      FillOne(tags[..n], s, tag);
      assert tags[s := tag][..n] == tags[..n][s := tag];
    } else {
      assert tags[s := tag][..n] == tags[..n];
    }
  }

  lemma {:induction false} NoneFilled(tags: seq<Bytes>)
    requires forall s | 0 <= s < |tags| :: tags[s] == []
    ensures CountFilled(tags) == 0
  {
    if tags != [] { NoneFilled(tags[..|tags| - 1]); }
  }

  /** The i-th number is offered to its slot's entry. */
  lemma {:induction false} OfferOne(tag: Bytes, slot: nat, i: nat)
    requires EntryOk(tag, slot, i)
    ensures EntryOk(if Slot(Decimal(i)) == slot && tag == [] then Decimal(i) else tag, slot, i + 1)
  {
    DecimalIsBraceFree(i);
    if tag != [] {
      var k: nat :| FirstHit(slot, i, k) && tag == Decimal(k);
      assert FirstHit(slot, i + 1, k);
    } else if Slot(Decimal(i)) == slot {
      assert FirstHit(slot, i + 1, i);
    }
  }

  /** The table after offering it the i-th number. */
  function Offered(tags: seq<Bytes>, i: nat): seq<Bytes>
    requires |tags| == HASH_SLOTS
  {
    var sl := Slot(Decimal(i));
    if tags[sl] == [] then tags[sl := Decimal(i)] else tags
  }

  lemma OfferAll(tags: seq<Bytes>, i: nat)
    requires TagsAfter(tags, i)
    ensures TagsAfter(Offered(tags, i), i + 1)
  {
    var t := Offered(tags, i);
    forall k | 0 <= k < |t| ensures EntryOk(t[k], k, i + 1) {
      OfferOne(tags[k], k, i);
    }
  }

  lemma {:induction false} OfferCounts(tags: seq<Bytes>, i: nat)
    requires |tags| == HASH_SLOTS
    ensures CountFilled(Offered(tags, i)) == CountFilled(tags) + if tags[Slot(Decimal(i))] == [] then 1 else 0
  {
    DecimalIsBraceFree(i);
    if tags[Slot(Decimal(i))] == [] { FillOne(tags, Slot(Decimal(i)), Decimal(i)); }
  }

  /** The fill loop's state: the table, how many slots are filled, how many numbers tried. */
  datatype Filling = Filling(tags: seq<Bytes>, filled: nat, tried: nat)

  /** Every slot holds the first tried number that hashes to it, and the count is right. */
  ghost predicate FillingOk(f: Filling) {
    match f
    case Filling(tags, filled, tried) => TagsAfter(tags, tried) && filled == CountFilled(tags)
  }

  lemma StartOk(f: Filling)
    requires f == Filling(seq(HASH_SLOTS, _ => []), 0, 0)
    ensures FillingOk(f)
  {
    NoneFilled(f.tags);
  }

  lemma TryOne(f: Filling)
    requires FillingOk(f)
    ensures |f.tags| == HASH_SLOTS
    ensures var sl := Slot(Decimal(f.tried));
            FillingOk(if f.tags[sl] == [] then Filling(f.tags[sl := Decimal(f.tried)], f.filled + 1, f.tried + 1)
                      else Filling(f.tags, f.filled, f.tried + 1))
  {
    OfferAll(f.tags, f.tried);
    OfferCounts(f.tags, f.tried);
  }

  lemma FullIsGood(f: Filling)
    requires FillingOk(f)
    ensures f.filled <= HASH_SLOTS && (f.filled == HASH_SLOTS ==> GoodTags(f.tags))
  {
    CountFilledFacts(f.tags);
    if f.filled == HASH_SLOTS {
      forall s | 0 <= s < |f.tags| ensures IsTag(f.tags[s], s) { HitIsTag(f.tags[s], s, f.tried); }
    }
  }

  // ---------- every slot has a number ----------

  lemma {:induction false} NumberSplit(c: Word, k: nat, a: nat, b: nat)
    ensures Number(c, k, a + b) == Number(c, k, a) + Pow2(a) * Number(c, k + a, b)
    decreases a
  {
    if a > 0 {
      NumberSplit(c, k + 1, a - 1, b);
      Regroup(Pow2(a - 1), Number(c, k + a, b));
    }
  }

  lemma Regroup(p: nat, y: nat)
    ensures 2 * (p * y) == (2 * p) * y
  {}

  lemma {:induction false} NumberSame(c: Word, d: Word, k: nat, n: nat)
    requires forall j | k <= j < k + n :: j in c <==> j in d
    ensures Number(c, k, n) == Number(d, k, n)
    decreases n
  {
    if n > 0 { NumberSame(c, d, k + 1, n - 1); }
  }

  lemma {:induction false} NumberOfBits(x: nat, k: nat, n: nat)
    requires x < Pow2(n)
    ensures Number(BitsFrom(x, k), k, n) == x
    decreases n
  {
    if n > 0 {
      NumberOfBits(x / 2, k + 1, n - 1);
      BitsFromRange(x / 2, k + 1, n - 1);
      NumberSame(BitsFrom(x, k), BitsFrom(x / 2, k + 1), k + 1, n - 1);
      assert k in BitsFrom(x, k) <==> x % 2 == 1;
    }
  }

  lemma Pow2Fourteen()
    ensures Pow2(14) == HASH_SLOTS
  {
    Pow2Eight();
    assert Pow2(10) == 1024;
    assert Pow2(12) == 4096;
  }

  lemma LowPart(a: nat, b: nat)
    requires a < HASH_SLOTS
    ensures (a + HASH_SLOTS * b) % HASH_SLOTS == a
  {}

  /** The slot is made of the low fourteen bits. */
  lemma {:induction false} SlotBits(s: Bytes, slot: nat)
    requires slot < HASH_SLOTS
    requires forall j: nat | j < 14 :: j in Crc(s) <==> j in BitsFrom(slot, 0)
    ensures Slot(s) == slot
  {
    var c := Crc(s);
    Pow2Fourteen();
    NumberSplit(c, 0, 14, 2);
    NumberBound(c, 0, 14);
    NumberSame(c, BitsFrom(slot, 0), 0, 14);
    NumberOfBits(slot, 0, 14);
    LowPart(Number(c, 0, 14), Number(c, 14, 2));
  }

  /** The number a digit string stands for. */
  function Value(s: Bytes): int {
    if s == [] then 0 else 10 * Value(s[..|s| - 1]) + s[|s| - 1] - 48
  }

  function Pow10(n: nat): nat {
    if n == 0 then 1 else 10 * Pow10(n - 1)
  }

  lemma {:induction false} DecimalOfValue(s: Bytes)
    requires s != [] && s[0] != 48 && forall b <- s :: SlotRange.IsDigit(b)
    ensures 1 <= Value(s) < Pow10(|s|) && Decimal(Value(s)) == s
    decreases |s|
  {
    var n := |s| - 1;
    assert SlotRange.IsDigit(s[n]) && s == s[..n] + [s[n]];
    if n > 0 {
      DecimalOfValue(s[..n]);
      assert Value(s) / 10 == Value(s[..n]) && Value(s) % 10 == s[n] - 48;
    } else {
      assert s[..0] == [];
    }
  }

  const ENOUGH := 10_000_000

  /** Every slot is the slot of a number below ten million. */
  lemma SlotHasNumber(slot: nat) returns (n: nat)
    requires slot < HASH_SLOTS
    ensures n < ENOUGH && Slot(Decimal(n)) == slot
  {
    var s := SlotRange.EverySlotIsHit(BitsFrom(slot, 0));
    SlotBits(s, slot);
    DecimalOfValue(s);
    Pow10Seven();
    n := Value(s);
  }

  lemma Pow10Seven()
    ensures Pow10(7) == ENOUGH
  {
    assert Pow10(2) == 100;
    assert Pow10(4) == 10_000;
    assert Pow10(6) == 1_000_000;
  }

  lemma EnoughIsFull(f: Filling)
    requires FillingOk(f) && f.tried >= ENOUGH
    ensures f.filled == HASH_SLOTS
  {
    CountFilledFacts(f.tags);
    forall s | 0 <= s < |f.tags| ensures f.tags[s] != [] {
      var n := SlotHasNumber(s);
      assert EntryOk(f.tags[s], s, f.tried);
    }
  }

  /** The fill loop ends, with a tag for every slot: the first number that hashes to it. */
  method FillTags() returns (f: Filling)
    ensures FillingOk(f) && f.filled == HASH_SLOTS && GoodTags(f.tags)
  {
    f := Filling(seq(HASH_SLOTS, _ => []), 0, 0);
    StartOk(f);
    while f.filled < HASH_SLOTS
      invariant FillingOk(f) && f.filled <= HASH_SLOTS
      decreases ENOUGH - f.tried
    {
      if f.tried >= ENOUGH { EnoughIsFull(f); }
      TryOne(f);
      var s := Decimal(f.tried);
      var sl := Slot(s);
      if f.tags[sl] == [] {
        f := Filling(f.tags[sl := s], f.filled + 1, f.tried + 1);
      } else {
        f := f.(tried := f.tried + 1);
      }
      FullIsGood(f);
    }
    FullIsGood(f);
  }

  // ---------- metadata keys ----------

  function MetaKeyOf(tags: seq<Bytes>, key: Bytes): Bytes
    requires |tags| == HASH_SLOTS
  {
    PREFIX + ([OPEN] + (tags[SlotOf(key)] + ([CLOSE] + key)))
  }

  function DataKeyFromMeta(mk: Bytes): Option<Bytes> {
    if !(PREFIX <= mk) then None
    else
      var rest := mk[|PREFIX|..];
      if rest == [] || rest[0] != OPEN then None
      else
        var end := IndexByte(rest, CLOSE);
        if end < 0 then None else Some(rest[end + 1..])
  }

  /** Every data key is recovered from its metadata key. */
  lemma MetaKeyInverts(tags: seq<Bytes>, key: Bytes)
    requires GoodTags(tags)
    ensures DataKeyFromMeta(MetaKeyOf(tags, key)) == Some(key)
  {
    var tag := tags[SlotOf(key)];
    assert IsTag(tag, SlotOf(key));
    var rest := [OPEN] + (tag + ([CLOSE] + key));
    var mk := MetaKeyOf(tags, key);
    assert mk[|PREFIX|..] == rest;
    assert rest[..1 + |tag|] == [OPEN] + tag;
    FirstIsUnique(rest, CLOSE, 1 + |tag|);
    assert rest[1 + |tag| + 1..] == key;
  }

  /** A metadata key of the data key: the prefix, a tag without a closing brace in braces,
      and the data key. */
  ghost predicate Names(mk: Bytes, tag: Bytes, key: Bytes) {
    CLOSE !in tag && mk == PREFIX + ([OPEN] + (tag + ([CLOSE] + key)))
  }

  /** A key is read back exactly from the byte strings of that form. */
  lemma DataKeyExactlyWhen(mk: Bytes, key: Bytes)
    ensures DataKeyFromMeta(mk) == Some(key) <==> exists tag :: Names(mk, tag, key)
  {
    if tag :| Names(mk, tag, key) {
      var rest := [OPEN] + (tag + ([CLOSE] + key));
      assert mk[|PREFIX|..] == rest;
      assert rest[..1 + |tag|] == [OPEN] + tag;
      FirstIsUnique(rest, CLOSE, 1 + |tag|);
      assert rest[1 + |tag| + 1..] == key;
    }
    if DataKeyFromMeta(mk) == Some(key) {
      var rest := mk[|PREFIX|..];
      var end := IndexByte(rest, CLOSE);
      var tag := rest[1..end];
      assert forall b <- tag :: b in rest[..end];
      assert rest == [OPEN] + (tag + ([CLOSE] + key));
      assert mk == PREFIX + rest;
      assert Names(mk, tag, key);
    }
  }

  /** A metadata key lives in its data key's slot. */
  lemma MetaKeyCoLocates(tags: seq<Bytes>, key: Bytes)
    requires GoodTags(tags)
    ensures SlotOf(MetaKeyOf(tags, key)) == SlotOf(key)
  {
    var tag := tags[SlotOf(key)];
    assert IsTag(tag, SlotOf(key));
    var mk := MetaKeyOf(tags, key);
    var i, j := |PREFIX|, |PREFIX| + 1 + |tag|;
    assert mk[..i] == PREFIX;
    assert mk[i + 1..j] == tag;
    assert mk[j] == CLOSE;
    assert TagAt(mk, i, j);
    SlotTagIsHashTag(mk, i, j);
  }

  /** Distinct data keys have distinct metadata keys. */
  lemma MetaKeysAreDistinct(tags: seq<Bytes>, a: Bytes, b: Bytes)
    requires GoodTags(tags) && MetaKeyOf(tags, a) == MetaKeyOf(tags, b)
    ensures a == b
  {
    MetaKeyInverts(tags, a);
    MetaKeyInverts(tags, b);
  }
}
