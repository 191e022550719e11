/** The coalescing key: a key tuple joined with NUL bytes. */
module KeySignature {
  import opened Rows

  const NUL: char := '\0'

  predicate NulFree(s: string) {
    forall i | 0 <= i < |s| :: s[i] != NUL
  }

  function Signature(key: Key): string {
    if |key| == 0 then ""
    else if |key| == 1 then key[0]
    else key[0] + [NUL] + Signature(key[1..])
  }

  /** Two strings of a head, a separator and a tail agree only part by part. */
  lemma SplitAtNul(a: string, b: string, s: string, t: string)
    requires NulFree(a) && NulFree(b) && a + [NUL] + s == b + [NUL] + t
    ensures a == b && s == t
  {
    var l, r := a + [NUL] + s, b + [NUL] + t;
    assert l[|a|] == NUL && r[|b|] == NUL;
    assert a == l[..|a|] && b == r[..|b|];
    assert s == l[|a| + 1..] && t == r[|b| + 1..];
  }

  /** Distinct keys of one table never coalesce, provided no part holds a NUL byte. */
  lemma {:induction false} SignatureIsInjective(a: Key, b: Key)
    requires |a| == |b|
    requires forall p <- a + b :: NulFree(p)
    ensures Signature(a) == Signature(b) <==> a == b
    decreases |a|
  {
    if |a| >= 1 {
      assert a[0] in a + b && b[0] in a + b;
      assert a == [a[0]] + a[1..] && b == [b[0]] + b[1..];
    }
    if |a| >= 2 {
      assert forall p <- a[1..] + b[1..] :: p in a + b;
      SignatureIsInjective(a[1..], b[1..]);
      if Signature(a) == Signature(b) {
        SplitAtNul(a[0], b[0], Signature(a[1..]), Signature(b[1..]));
      }
    }
  }

  // ---------- exactly which keys share their signature ----------

  function Nuls(s: string): nat {
    if s == "" then 0 else Nuls(s[1..]) + if s[0] == NUL then 1 else 0
  }

  lemma {:induction false} NulsJoin(s: string, t: string)
    ensures Nuls(s + t) == Nuls(s) + Nuls(t)
  {
    if s == "" {
      assert s + t == t;
    } else {
      assert (s + t)[1..] == s[1..] + t;
      NulsJoin(s[1..], t);
    }
  }

  lemma {:induction false} NulsFree(s: string)
    ensures Nuls(s) == 0 <==> NulFree(s)
  {
    if s != "" {
      NulsFree(s[1..]);
      assert forall i | 0 < i < |s| :: s[i] == s[1..][i - 1];
    }
  }

  /** A signature has one NUL per separator, and more only if a part holds one. */
  lemma {:induction false} SignatureNuls(key: Key)
    requires key != []
    ensures Nuls(Signature(key)) >= |key| - 1
    ensures Nuls(Signature(key)) == |key| - 1 <==> forall p <- key :: NulFree(p)
    decreases |key|
  {
    assert key == [key[0]] + key[1..];
    NulsFree(key[0]);
    if |key| >= 2 {
      SignatureNuls(key[1..]);
      NulsJoin(key[0] + [NUL], Signature(key[1..]));
      NulsJoin(key[0], [NUL]);
      assert Nuls([NUL]) == 1;
    }
  }

  /** A NUL-free key shares its signature with no other key of its arity. */
  lemma {:induction false} NulFreeIsAlone(a: Key, b: Key)
    requires |a| == |b| && Signature(a) == Signature(b) && forall p <- a :: NulFree(p)
    ensures a == b
  {
    if a != [] {
      SignatureNuls(a);
      SignatureNuls(b);
      SignatureIsInjective(a, b);
    }
  }

  lemma {:induction false} SplitPart(s: string) returns (u: string, v: string)
    requires !NulFree(s)
    ensures s == u + [NUL] + v
  {
    var i :| 0 <= i < |s| && s[i] == NUL;
    u, v := s[..i], s[i + 1..];
  }

  /** The signature of a key whose parts i and i + 1 are regrouped around another NUL. */
  lemma {:induction false} Regroup(a: Key, i: nat, x: string, y: string, x': string, y': string)
    requires i + 1 < |a| && a[i] == x && a[i + 1] == y && x + [NUL] + y == x' + [NUL] + y'
    ensures Signature(a[i := x'][i + 1 := y']) == Signature(a)
    decreases |a|
  {
    var b := a[i := x'][i + 1 := y'];
    if i == 0 {
      if |a| == 2 {
        assert a[1..] == [y] && b[1..] == [y'];
      } else {
        var rest := Signature(a[2..]);
        assert a[1..][1..] == a[2..] && b[1..][1..] == a[2..];
        assert x + [NUL] + (y + [NUL] + rest) == (x + [NUL] + y) + ([NUL] + rest);
        assert x' + [NUL] + (y' + [NUL] + rest) == (x' + [NUL] + y') + ([NUL] + rest);
      }
    } else {
      assert b[1..] == a[1..][i - 1 := x'][i := y'];
      Regroup(a[1..], i - 1, x, y, x', y');
    }
  }

  /** A part that holds a NUL can be regrouped with a neighbour. */
  lemma {:induction false} NulCollides(a: Key, i: nat) returns (b: Key)
    requires |a| >= 2 && i < |a| && !NulFree(a[i])
    ensures |b| == |a| && b != a && Signature(b) == Signature(a)
  {
    var u, v := SplitPart(a[i]);
    if i + 1 < |a| {
      var y := v + [NUL] + a[i + 1];
      assert a[i] + [NUL] + a[i + 1] == u + [NUL] + y;
      b := a[i := u][i + 1 := y];
      Regroup(a, i, a[i], a[i + 1], u, y);
    } else {
      var x := a[i - 1] + [NUL] + u;
      assert a[i - 1] + [NUL] + a[i] == x + [NUL] + v;
      b := a[i - 1 := x][i := v];
      Regroup(a, i - 1, a[i - 1], a[i], x, v);
    }
    assert |b[i]| < |a[i]|;
  }

  /** Another key of the same arity has the same signature exactly when the key is
      composite and one of its parts holds a NUL byte. */
  lemma {:induction false} CollidesExactlyWhen(a: Key)
    ensures (exists b: Key :: |b| == |a| && b != a && Signature(b) == Signature(a)) <==>
            |a| >= 2 && exists p <- a :: !NulFree(p)
  {
    if |a| >= 2 && exists p <- a :: !NulFree(p) {
      var p :| p in a && !NulFree(p);
      var i :| 0 <= i < |a| && a[i] == p;
      var b := NulCollides(a, i);
    } else {
      forall b: Key | |b| == |a| && Signature(b) == Signature(a) ensures b == a {
        if |a| >= 2 { NulFreeIsAlone(a, b); }
      }
    }
  }
}
