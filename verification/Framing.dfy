/** The length-prefixed framing of Redis records: key, TTL, flags, an optional mesh
    version, and the dumped value, all integers big-endian.

    Lengths are written modulo their field's width, so a record round-trips when its
    lengths are in range. */
module Framing {
  import opened Octets

  // ---------- big-endian integers ----------

  function Pow256(n: nat): (p: nat)
    ensures p > 0
  {
    if n == 0 then 1 else 256 * Pow256(n - 1)
  }

  /** The low n bytes of v, most significant first. */
  function Be(v: nat, n: nat): (s: Bytes)
    ensures |s| == n
  {
    if n == 0 then [] else Be(v / 256, n - 1) + [v % 256]
  }

  function Value(s: Bytes): nat {
    if s == [] then 0 else 256 * Value(s[..|s| - 1]) + s[|s| - 1]
  }

  lemma {:induction false} BeInverse(v: nat, n: nat)
    requires v < Pow256(n)
    ensures Value(Be(v, n)) == v
  {
    if n > 0 {
      BeInverse(v / 256, n - 1);
      assert Be(v, n)[..n - 1] == Be(v / 256, n - 1);
    }
  }

  lemma Widths()
    ensures Pow256(2) == 0x1_0000 && Pow256(4) == 0x1_0000_0000 && Pow256(8) == 0x1_0000_0000_0000_0000
  {
    assert Pow256(1) == 256;
    assert Pow256(2) == 0x1_0000;
    assert Pow256(3) == 0x100_0000;
    assert Pow256(4) == 0x1_0000_0000;
    assert Pow256(5) == 0x100_0000_0000;
    assert Pow256(6) == 0x1_0000_0000_0000;
    assert Pow256(7) == 0x100_0000_0000_0000;
  }

  /** Two's complement of the given modulus. */
  function Unsigned(x: int, m: nat): nat
    requires -(m as int) <= x < m
  {
    if x < 0 then x + m else x
  }

  function Signed(u: nat, m: nat): int {
    if 2 * u < m then u else u - m
  }

  const M16: nat := 0x1_0000
  const M32: nat := 0x1_0000_0000
  const M64: nat := 0x1_0000_0000_0000_0000

  predicate Fits(x: int, m: nat) {
    -(m as int) <= 2 * x < m
  }

  // ---------- records ----------

  datatype Version = Version(phys: int, log: int, node: Bytes, deleted: bool, vhash: nat)

  datatype Record = Record(key: Bytes, ttl: int, flags: Byte, dump: Bytes, ver: Version)

  const NO_VERSION := Version(0, 0, [], false, 0)

  /** Bit 1: the record carries a version. */
  predicate IsMesh(flags: Byte) {
    flags / 2 % 2 == 1
  }

  /** Bit 2: the record is a tombstone. */
  predicate IsDeleted(flags: Byte) {
    flags / 4 % 2 == 1
  }

  /** Integer fields have their Go types. */
  predicate Typed(r: Record) {
    && Fits(r.ttl, M64) && Fits(r.ver.phys, M64) && Fits(r.ver.log, M32) && r.ver.vhash < M64
  }

  /** Lengths in range for their length fields. */
  predicate LengthsFit(r: Record) {
    |r.key| < M32 && |r.dump| < M32 && (IsMesh(r.flags) ==> |r.ver.node| < M16)
  }

  type Sendable = r: Record | Typed(r) && LengthsFit(r) witness Record([], 0, 0, [], NO_VERSION)

  /** What travels of a record: no version without the mesh flag, and the tombstone flag
      from the flag byte. */
  function Carried(r: Record): Record {
    r.(ver := if IsMesh(r.flags) then r.ver.(deleted := IsDeleted(r.flags)) else NO_VERSION)
  }

  /** A length prefix of `width` bytes, then the bytes. */
  function EncodeBytes(b: Bytes, width: nat): Bytes {
    Be(|b| % Pow256(width), width) + b
  }

  function EncodeVersion(v: Version): Bytes
    requires Fits(v.phys, M64) && Fits(v.log, M32)
  {
    Be(Unsigned(v.phys, M64), 8) + (Be(Unsigned(v.log, M32), 4) + (Be(v.vhash, 8) + EncodeBytes(v.node, 2)))
  }

  function EncodeRest(r: Record): Bytes
    requires Typed(r)
  {
    (if IsMesh(r.flags) then EncodeVersion(r.ver) else []) + EncodeBytes(r.dump, 4)
  }

  function Encode(r: Record): Bytes
    requires Typed(r)
  {
    EncodeBytes(r.key, 4) + (Be(Unsigned(r.ttl, M64), 8) + ([r.flags] + EncodeRest(r)))
  }

  // ---------- layout ----------

  /** Big-endian: byte i of n counts the 256^(n-1-i)s. */
  lemma {:induction false} BeByte(v: nat, n: nat, i: nat)
    requires i < n
    ensures Be(v, n)[i] == v / Pow256(n - 1 - i) % 256
  {
    if i < n - 1 {
      BeByte(v / 256, n - 1, i);
      DivTwice(v, Pow256(n - 2 - i));
    }
  }

  lemma DivTwice(v: nat, p: nat)
    requires p > 0
    ensures v / 256 / p == v / (256 * p)
  {
    var q := v / 256 / p;
    var r := v / 256 % p;
    var low := 256 * r + v % 256;
    assert v / 256 == p * q + r;
    assert v == 256 * (v / 256) + v % 256;
    assert v == (256 * p) * q + low by { Regroup(p, q, r, v % 256); }
    assert 0 <= low < 256 * p;
    DivIs(v, 256 * p, q, low);
  }

  lemma Regroup(p: nat, q: nat, r: nat, l: nat)
    ensures 256 * (p * q + r) + l == (256 * p) * q + (256 * r + l)
  {}

  lemma DivIs(v: nat, d: nat, q: nat, r: nat)
    requires d > 0 && v == d * q + r && r < d
    ensures v / d == q
  {
    if v / d < q { Scale(d, v / d + 1, q); }
    if v / d > q { Scale(d, q + 1, v / d); }
  }

  lemma Scale(d: nat, a: nat, b: nat)
    requires a <= b
    ensures d * a <= d * b
  {}

  /** Where the fields of a record lie: key length, key, TTL, flags, and after the version,
      if any, the dump's length and the dump to the end. */
  lemma {:induction false} RecordLayout(r: Record)
    requires Typed(r) && LengthsFit(r)
    ensures var s, k, v := Encode(r), |r.key|, if IsMesh(r.flags) then 22 + |r.ver.node| else 0;
            && |s| == 17 + k + v + |r.dump|
            && s[..4] == Be(k, 4) && s[4..4 + k] == r.key
            && s[4 + k..12 + k] == Be(Unsigned(r.ttl, M64), 8) && s[12 + k] == r.flags
            && (IsMesh(r.flags) ==> s[13 + k..13 + k + v] == EncodeVersion(r.ver))
            && s[13 + k + v..17 + k + v] == Be(|r.dump|, 4) && s[17 + k + v..] == r.dump
  {
    Widths();
    SmallMod(|r.key|, M32);
    SmallMod(|r.dump|, M32);
    assert EncodeBytes(r.key, 4) == Be(|r.key|, 4) + r.key;
    assert EncodeBytes(r.dump, 4) == Be(|r.dump|, 4) + r.dump;
  }

  /** And of a version: physical time, logical counter, value hash, node length, node. */
  lemma {:induction false} VersionLayout(v: Version)
    requires Fits(v.phys, M64) && Fits(v.log, M32) && |v.node| < M16
    ensures var s := EncodeVersion(v);
            && |s| == 22 + |v.node|
            && s[..8] == Be(Unsigned(v.phys, M64), 8) && s[8..12] == Be(Unsigned(v.log, M32), 4)
            && s[12..20] == Be(v.vhash, 8) && s[20..22] == Be(|v.node|, 2) && s[22..] == v.node
  {
    Widths();
    SmallMod(|v.node|, M16);
    assert EncodeBytes(v.node, 2) == Be(|v.node|, 2) + v.node;
  }

  // ---------- decoding ----------

  datatype Field = Field(head: Bytes, rest: Bytes) | Short

  /** A full read of n bytes. */
  function Take(s: Bytes, n: nat): Field {
    if n <= |s| then Field(s[..n], s[n..]) else Short
  }

  /** A length prefix of `width` bytes, then that many bytes. */
  function TakeBytes(s: Bytes, width: nat): Field {
    var len := Take(s, width);
    if len.Short? then Short else Take(len.rest, Value(len.head))
  }

  datatype Versioned = Versioned(ver: Version, rest: Bytes) | NoVersion

  function DecodeVersion(s: Bytes, flags: Byte): Versioned {
    if !IsMesh(flags) then Versioned(NO_VERSION, s)
    else
      var phys := Take(s, 8);
      if phys.Short? then NoVersion
      else
        var log := Take(phys.rest, 4);
        if log.Short? then NoVersion
        else
          var vhash := Take(log.rest, 8);
          if vhash.Short? then NoVersion
          else
            var node := TakeBytes(vhash.rest, 2);
            if node.Short? then NoVersion
            else Versioned(Version(Signed(Value(phys.head), M64), Signed(Value(log.head), M32), node.head,
                                   IsDeleted(flags), Value(vhash.head)), node.rest)
  }

  /** End: the stream ended on a record boundary. Cut: it ended inside a record. */
  datatype Decoded = Got(rec: Record, rest: Bytes) | End | Cut

  /** The record after its key and TTL. */
  function DecodeRest(s: Bytes, key: Bytes, ttl: int): Decoded {
    var flags := Take(s, 1);
    if flags.Short? then Cut
    else
      var v := DecodeVersion(flags.rest, flags.head[0]);
      if v.NoVersion? then Cut
      else
        var dump := TakeBytes(v.rest, 4);
        if dump.Short? then Cut else Got(Record(key, ttl, flags.head[0], dump.head, v.ver), dump.rest)
  }

  /** The only clean end is before the first byte of a record. */
  function Decode(s: Bytes): Decoded {
    if s == [] then End
    else
      var key := TakeBytes(s, 4);
      if key.Short? then Cut
      else
        var ttl := Take(key.rest, 8);
        if ttl.Short? then Cut else DecodeRest(ttl.rest, key.head, Signed(Value(ttl.head), M64))
  }

  lemma TakeExact(a: Bytes, b: Bytes)
    ensures Take(a + b, |a|) == Field(a, b)
  {}

  /** Reading the first part of a concatenation. */
  lemma TakeFirst(a: Bytes, b: Bytes, rest: Bytes)
    ensures Take(a + b + rest, |a|) == Field(a, b + rest)
  {
    assert a + b + rest == a + (b + rest);
  }

  lemma {:induction false} TakeBytesExact(b: Bytes, width: nat, rest: Bytes)
    requires |b| < Pow256(width)
    ensures TakeBytes(EncodeBytes(b, width) + rest, width) == Field(b, rest)
  {
    SmallMod(|b|, Pow256(width));
    BeInverse(|b|, width);
    TakeFirst(Be(|b|, width), b, rest);
    TakeExact(b, rest);
  }

  lemma SmallMod(a: nat, m: nat)
    requires a < m
    ensures a % m == a
  {}

  lemma SignedInverse(x: int, m: nat)
    requires Fits(x, m)
    ensures Signed(Unsigned(x, m), m) == x && Unsigned(x, m) < m
  {}

  lemma {:induction false} VersionRoundTrip(v: Version, flags: Byte, rest: Bytes)
    requires IsMesh(flags) && Fits(v.phys, M64) && Fits(v.log, M32) && v.vhash < M64 && |v.node| < M16
    ensures DecodeVersion(EncodeVersion(v) + rest, flags) == Versioned(v.(deleted := IsDeleted(flags)), rest)
  {
    Widths();
    SignedInverse(v.phys, M64);
    SignedInverse(v.log, M32);
    var p, l, h, n := Be(Unsigned(v.phys, M64), 8), Be(Unsigned(v.log, M32), 4), Be(v.vhash, 8), EncodeBytes(v.node, 2);
    BeInverse(Unsigned(v.phys, M64), 8);
    BeInverse(Unsigned(v.log, M32), 4);
    BeInverse(v.vhash, 8);
    TakeFirst(p, l + (h + n), rest);
    TakeFirst(l, h + n, rest);
    TakeFirst(h, n, rest);
    TakeBytesExact(v.node, 2, rest);
  }

  lemma {:induction false} VersionPart(r: Record, rest: Bytes)
    requires Typed(r) && LengthsFit(r)
    ensures DecodeVersion(EncodeRest(r) + rest, r.flags) == Versioned(Carried(r).ver, EncodeBytes(r.dump, 4) + rest)
  {
    var d := EncodeBytes(r.dump, 4);
    if IsMesh(r.flags) {
      assert EncodeRest(r) + rest == EncodeVersion(r.ver) + (d + rest);
      VersionRoundTrip(r.ver, r.flags, d + rest);
    } else {
      assert EncodeRest(r) == d;
    }
  }

  lemma {:induction false} RestRoundTrip(r: Record, rest: Bytes)
    requires Typed(r) && LengthsFit(r)
    ensures DecodeRest([r.flags] + EncodeRest(r) + rest, r.key, r.ttl) == Got(Carried(r), rest)
  {
    TakeFirst([r.flags], EncodeRest(r), rest);
    VersionPart(r, rest);
    Widths();
    TakeBytesExact(r.dump, 4, rest);
  }

  /** Decoding one encoded record gives back what it carries and leaves the rest. */
  lemma {:induction false} RecordRoundTrip(r: Record, rest: Bytes)
    requires Typed(r) && LengthsFit(r)
    ensures Decode(Encode(r) + rest) == Got(Carried(r), rest)
  {
    Widths();
    var t, tail := Be(Unsigned(r.ttl, M64), 8), [r.flags] + EncodeRest(r);
    assert Encode(r) + rest == EncodeBytes(r.key, 4) + (t + tail + rest);
    TakeBytesExact(r.key, 4, t + tail + rest);
    TakeFirst(t, tail, rest);
    BeInverse(Unsigned(r.ttl, M64), 8);
    SignedInverse(r.ttl, M64);
    RestRoundTrip(r, rest);
  }

  // ---------- truncation ----------

  lemma TakeExtends(s: Bytes, n: nat, more: Bytes)
    requires Take(s, n).Field?
    ensures Take(s + more, n) == Field(Take(s, n).head, Take(s, n).rest + more)
  {}

  lemma TakeBytesExtends(s: Bytes, width: nat, more: Bytes)
    requires TakeBytes(s, width).Field?
    ensures TakeBytes(s + more, width) == Field(TakeBytes(s, width).head, TakeBytes(s, width).rest + more)
  {
    TakeExtends(s, width, more);
    var len := Take(s, width);
    TakeExtends(len.rest, Value(len.head), more);
  }

  lemma {:induction false} VersionExtends(s: Bytes, flags: Byte, more: Bytes)
    requires DecodeVersion(s, flags).Versioned?
    ensures var v := DecodeVersion(s, flags); DecodeVersion(s + more, flags) == Versioned(v.ver, v.rest + more)
  {
    if IsMesh(flags) {
      var phys := Take(s, 8);
      TakeExtends(s, 8, more);
      var log := Take(phys.rest, 4);
      TakeExtends(phys.rest, 4, more);
      var vhash := Take(log.rest, 8);
      TakeExtends(log.rest, 8, more);
      TakeBytesExtends(vhash.rest, 2, more);
    }
  }

  lemma {:induction false} RestExtends(s: Bytes, key: Bytes, ttl: int, more: Bytes)
    requires DecodeRest(s, key, ttl).Got?
    ensures var d := DecodeRest(s, key, ttl); DecodeRest(s + more, key, ttl) == Got(d.rec, d.rest + more)
  {
    var flags := Take(s, 1);
    TakeExtends(s, 1, more);
    var v := DecodeVersion(flags.rest, flags.head[0]);
    VersionExtends(flags.rest, flags.head[0], more);
    TakeBytesExtends(v.rest, 4, more);
  }

  /** A complete record reads the same whatever follows it. */
  lemma {:induction false} DecodeExtends(s: Bytes, more: Bytes)
    requires Decode(s).Got?
    ensures var d := Decode(s); Decode(s + more) == Got(d.rec, d.rest + more)
  {
    TakeBytesExtends(s, 4, more);
    var key := TakeBytes(s, 4);
    TakeExtends(key.rest, 8, more);
    var ttl := Take(key.rest, 8);
    RestExtends(ttl.rest, key.head, Signed(Value(ttl.head), M64), more);
  }

  /** A stream cut inside a record is reported as cut, never as a clean end. */
  lemma {:induction false} CutIsNeverClean(r: Record, k: nat)
    requires Typed(r) && LengthsFit(r) && 0 < k < |Encode(r)|
    ensures Decode(Encode(r)[..k]) == Cut
  {
    var head, more := Encode(r)[..k], Encode(r)[k..];
    assert head + more == Encode(r) == Encode(r) + [];
    RecordRoundTrip(r, []);
    if Decode(head).Got? { DecodeExtends(head, more); }
  }

  // ---------- streams ----------

  /** A way to frame a record and to read one record off a stream. */
  datatype Codec = Codec(frame: Sendable -> Bytes, parse: Bytes -> Decoded)

  ghost predicate Shrinks(c: Codec) {
    forall s: Bytes :: c.parse(s).Got? ==> |c.parse(s).rest| < |s|
  }

  ghost predicate Inverts(c: Codec) {
    forall r: Sendable, rest: Bytes :: c.parse(c.frame(r) + rest) == Got(Carried(r), rest)
  }

  ghost predicate CutsShow(c: Codec) {
    forall r: Sendable, k: nat | 0 < k < |c.frame(r)| :: c.parse(c.frame(r)[..k]) == Cut
  }

  /** The records read until the stream ends, and whether it ended cleanly. */
  ghost function ReadAll(c: Codec, s: Bytes): (seq<Record>, bool)
    requires Shrinks(c)
    decreases |s|
  {
    match c.parse(s)
    case End => ([], true)
    case Cut => ([], false)
    case Got(rec, rest) => ([rec] + ReadAll(c, rest).0, ReadAll(c, rest).1)
  }

  function Concat(c: Codec, rs: seq<Sendable>): Bytes {
    if rs == [] then [] else c.frame(rs[0]) + Concat(c, rs[1..])
  }

  function AllCarried(rs: seq<Sendable>): seq<Record> {
    if rs == [] then [] else [Carried(rs[0])] + AllCarried(rs[1..])
  }

  /** Records concatenated on a stream read back; the tail is judged on its own. */
  lemma {:induction false} ReadAllConcat(c: Codec, rs: seq<Sendable>, tail: Bytes)
    requires Shrinks(c) && Inverts(c)
    ensures ReadAll(c, Concat(c, rs) + tail) == (AllCarried(rs) + ReadAll(c, tail).0, ReadAll(c, tail).1)
  {
    if rs == [] {
      assert [] + tail == tail;
      assert AllCarried(rs) + ReadAll(c, tail).0 == ReadAll(c, tail).0;
    } else {
      var rest := Concat(c, rs[1..]) + tail;
      assert Concat(c, rs) + tail == c.frame(rs[0]) + rest;
      ReadAllConcat(c, rs[1..], tail);
      assert AllCarried(rs) + ReadAll(c, tail).0 == [Carried(rs[0])] + (AllCarried(rs[1..]) + ReadAll(c, tail).0);
    }
  }

  /** A whole stream reads back as its records and ends cleanly; cut inside a record it
      yields the records before it and an error. */
  lemma {:induction false} StreamRoundTrip(c: Codec, rs: seq<Sendable>, last: Sendable, k: nat)
    requires Shrinks(c) && Inverts(c) && CutsShow(c) && c.parse([]) == End
    ensures ReadAll(c, Concat(c, rs)) == (AllCarried(rs), true)
    ensures 0 < k < |c.frame(last)| ==> ReadAll(c, Concat(c, rs) + c.frame(last)[..k]) == (AllCarried(rs), false)
  {
    ReadAllConcat(c, rs, []);
    assert Concat(c, rs) + [] == Concat(c, rs) && AllCarried(rs) + [] == AllCarried(rs);
    if 0 < k < |c.frame(last)| { ReadAllConcat(c, rs, c.frame(last)[..k]); }
  }

  lemma {:induction false} DecodeShrinks(s: Bytes)
    requires Decode(s).Got?
    ensures |Decode(s).rest| < |s|
  {}

  function Frame(r: Sendable): Bytes {
    Encode(r)
  }

  /** The framing obeys the laws streams need. */
  lemma {:induction false} FramingIsLawful()
    ensures var c := Codec(Frame, Decode); Shrinks(c) && Inverts(c) && CutsShow(c) && c.parse([]) == End
  {
    forall s: Bytes | Decode(s).Got? ensures |Decode(s).rest| < |s| { DecodeShrinks(s); }
    forall r: Sendable, rest: Bytes ensures Decode(Frame(r) + rest) == Got(Carried(r), rest) { RecordRoundTrip(r, rest); }
    forall r: Sendable, k: nat | 0 < k < |Frame(r)| ensures Decode(Frame(r)[..k]) == Cut { CutIsNeverClean(r, k); }
  }

  /** A reader of `all` has the records `recs` behind it and `rest` before it. */
  ghost predicate ReadSoFar(c: Codec, all: Bytes, recs: seq<Record>, rest: Bytes) {
    Shrinks(c) && ReadAll(c, all) == (recs + ReadAll(c, rest).0, ReadAll(c, rest).1)
  }

  lemma {:induction false} ReadNothingYet(c: Codec, all: Bytes)
    requires Shrinks(c)
    ensures ReadSoFar(c, all, [], all)
  {
    assert [] + ReadAll(c, all).0 == ReadAll(c, all).0;
  }

  lemma {:induction false} ReadOneMore(c: Codec, all: Bytes, recs: seq<Record>, rest: Bytes)
    requires ReadSoFar(c, all, recs, rest)
    ensures c.parse(rest).Got? ==> ReadSoFar(c, all, recs + [c.parse(rest).rec], c.parse(rest).rest)
    ensures c.parse(rest) == End ==> ReadAll(c, all) == (recs, true)
    ensures c.parse(rest) == Cut ==> ReadAll(c, all) == (recs, false)
  {
    if c.parse(rest).Got? {
      var rec, more := c.parse(rest).rec, ReadAll(c, c.parse(rest).rest).0;
      assert recs + ([rec] + more) == recs + [rec] + more;
    } else {
      assert recs + [] == recs;
    }
  }

  /** This framing, as a codec. */
  function Wire(): Codec {
    Codec(Frame, Decode)
  }

  /** Any concatenation of framed records reads back as those records and ends cleanly; cut
      inside a record it yields the records before it and an error. */
  lemma {:induction false} FramingRoundTrip(rs: seq<Sendable>, last: Sendable, k: nat)
    ensures Shrinks(Wire())
    ensures ReadAll(Wire(), Concat(Wire(), rs)) == (AllCarried(rs), true)
    ensures 0 < k < |Frame(last)| ==>
              ReadAll(Wire(), Concat(Wire(), rs) + Frame(last)[..k]) == (AllCarried(rs), false)
  {
    FramingIsLawful();
    StreamRoundTrip(Wire(), rs, last, k);
  }

  // ---------- the writer and the reader ----------

  lemma Join(a: Bytes, b: Bytes, c: Bytes, d: Bytes)
    ensures a + b + c + d == a + (b + (c + d)) == a + (b + c + d)
  {
    assert a + b + c + d == a + (b + (c + d));
    assert b + (c + d) == b + c + d;
  }

  class SyncWriter {
    var out: Bytes

    constructor ()
      ensures out == []
    {
      out := [];
    }

    /** Builds the record field by field and appends it in one write. */
    method Write(r: Record)
      requires Typed(r)
      modifies this
      ensures out == old(out) + Encode(r)
    {
      var buf := Be(|r.key| % Pow256(4), 4);
      buf := buf + r.key;
      assert buf == EncodeBytes(r.key, 4);
      buf := buf + Be(Unsigned(r.ttl, M64), 8);
      buf := buf + [r.flags];
      ghost var head := buf;
      if IsMesh(r.flags) { buf := AppendVersion(buf, r.ver); }
      buf := buf + Be(|r.dump| % Pow256(4), 4);
      buf := buf + r.dump;
      assert buf == head + EncodeRest(r) by {
        Join(head, if IsMesh(r.flags) then EncodeVersion(r.ver) else [], Be(|r.dump| % Pow256(4), 4), r.dump);
      }
      Join(EncodeBytes(r.key, 4), Be(Unsigned(r.ttl, M64), 8), [r.flags], EncodeRest(r));
      out := out + buf;
    }

    static method AppendVersion(head: Bytes, v: Version) returns (buf: Bytes)
      requires Fits(v.phys, M64) && Fits(v.log, M32)
      ensures buf == head + EncodeVersion(v)
    {
      buf := head + Be(Unsigned(v.phys, M64), 8);
      buf := buf + Be(Unsigned(v.log, M32), 4);
      buf := buf + Be(v.vhash, 8);
      ghost var body := Be(Unsigned(v.phys, M64), 8) + (Be(Unsigned(v.log, M32), 4) + Be(v.vhash, 8));
      Join(head, Be(Unsigned(v.phys, M64), 8), Be(Unsigned(v.log, M32), 4), Be(v.vhash, 8));
      buf := buf + Be(|v.node| % Pow256(2), 2);
      buf := buf + v.node;
      Join(head, body, Be(|v.node| % Pow256(2), 2), v.node);
      Join([], Be(Unsigned(v.phys, M64), 8), Be(Unsigned(v.log, M32), 4), Be(v.vhash, 8));
      assert head + EncodeVersion(v) == head + (body + EncodeBytes(v.node, 2));
    }
  }

  class Reader {
    var rest: Bytes

    constructor (s: Bytes)
      ensures rest == s
    {
      rest := s;
    }

    /** Reads exactly n bytes or reports how the stream ended; nothing to read succeeds. */
    method ReadFull(n: nat) returns (ok: bool, head: Bytes)
      modifies this
      ensures ok <==> n <= |old(rest)|
      ensures ok ==> head == old(rest)[..n] && rest == old(rest)[n..]
    {
      if n <= |rest| {
        ok, head, rest := true, rest[..n], rest[n..];
      } else {
        ok, head, rest := false, [], [];
      }
    }

    method ReadRecord() returns (d: Decoded)
      modifies this
      ensures d == Decode(old(rest)) && (d.Got? ==> rest == d.rest)
    {
      var atEnd := rest == [];
      var ok, hdr := ReadFull(4);
      if !ok { return if atEnd then End else Cut; }
      var key: Bytes;
      ok, key := ReadFull(Value(hdr));
      if !ok { return Cut; }
      var mid: Bytes;
      ok, mid := ReadFull(8);
      if !ok { return Cut; }
      var ttl := Signed(Value(mid), M64);
      d := ReadRest(key, ttl);
    }

    method ReadRest(key: Bytes, ttl: int) returns (d: Decoded)
      modifies this
      ensures d == DecodeRest(old(rest), key, ttl) && (d.Got? ==> rest == d.rest)
    {
      var ok, flag := ReadFull(1);
      if !ok { return Cut; }
      var ver := NO_VERSION;
      if IsMesh(flag[0]) {
        ok, ver := ReadVersion(flag[0]);
        if !ok { return Cut; }
      }
      var dl: Bytes, dump: Bytes;
      ok, dl := ReadFull(4);
      if !ok { return Cut; }
      ok, dump := ReadFull(Value(dl));
      if !ok { return Cut; }
      return Got(Record(key, ttl, flag[0], dump, ver), rest);
    }

    method ReadVersion(flags: Byte) returns (ok: bool, ver: Version)
      requires IsMesh(flags)
      modifies this
      ensures ok <==> DecodeVersion(old(rest), flags).Versioned?
      ensures ok ==> DecodeVersion(old(rest), flags) == Versioned(ver, rest)
    {
      ver := NO_VERSION;
      var p: Bytes, l: Bytes, h: Bytes, nl: Bytes, node: Bytes;
      ok, p := ReadFull(8);
      if !ok { return; }
      ok, l := ReadFull(4);
      if !ok { return; }
      ok, h := ReadFull(8);
      if !ok { return; }
      ok, nl := ReadFull(2);
      if !ok { return; }
      ok, node := ReadFull(Value(nl));
      if !ok { return; }
      ver := Version(Signed(Value(p), M64), Signed(Value(l), M32), node, IsDeleted(flags), Value(h));
    }

    /** The loop of every consumer of a stream: records until the stream ends. */
    method ReadStream() returns (recs: seq<Record>, clean: bool)
      modifies this
      ensures Shrinks(Wire()) && (recs, clean) == ReadAll(Wire(), old(rest))
    {
      FramingIsLawful();
      ReadNothingYet(Wire(), rest);
      recs := [];
      while true
        invariant ReadSoFar(Wire(), old(rest), recs, rest)
        decreases |rest|
      {
        ReadOneMore(Wire(), old(rest), recs, rest);
        var d := ReadRecord();
        if d == End { return recs, true; }
        if d == Cut { return recs, false; }
        recs := recs + [d.rec];
      }
    }
  }
}
