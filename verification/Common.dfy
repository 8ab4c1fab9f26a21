// Types shared by the models of the individual packages.
module Common {
  datatype Option<+T> = None | Some(value: T)

  datatype Result<+T, +E> = Ok(value: T) | Err(error: E)

  // A byte outside the finite field arithmetic is a plain number. Nothing that is proved needs its range, and
  // no assumption can be met only by going beyond it.
  type Bytes = seq<int>

  // Nanoseconds on the wall clock
  type Time = int

  const SECOND: int := 1_000_000_000
  const UINT32: int := 0x1_0000_0000
  const UINT64: int := 0x1_0000_0000_0000_0000
  const MAX_INT64: int := 0x7fff_ffff_ffff_ffff

  function Pow256(n: nat): (p: nat)
    ensures p > 0
  {
    if n == 0 then 1 else 256 * Pow256(n - 1)
  }

  // The n lowest bytes of v, most significant first
  function BigEndian(n: nat, v: nat): (b: Bytes)
    ensures |b| == n
    decreases n
  {
    if n == 0 then [] else BigEndian(n - 1, v / 256) + [v % 256]
  }

  lemma {:induction false} ModSplit(v: nat, p: nat)
    requires p > 0
    ensures v % (256 * p) == 256 * ((v / 256) % p) + v % 256
  {
    var q, h := v / 256 / p, (v / 256) % p;
    var r := 256 * h + v % 256;
    assert v / 256 == p * q + h;
    assert v == (256 * p) * q + r by {
      assert 256 * (p * q) == (256 * p) * q;
    }
    assert h <= p - 1;
    assert 0 <= r < 256 * p;
    RemainderIs(v, 256 * p, q, r);
  }

  lemma {:induction false} RemainderIs(v: nat, m: nat, q: nat, r: nat)
    requires m > 0 && v == m * q + r && r < m
    ensures v % m == r
  {
    assert m * (v / m) + v % m == m * q + r;
    NextMultiple(m, v / m, q);
    NextMultiple(m, q, v / m);
  }

  lemma {:induction false} NextMultiple(m: nat, a: nat, b: nat)
    ensures a < b ==> m * a + m <= m * b
    decreases b
  {
    if a < b {
      NextMultiple(m, a, b - 1);
      assert m * b == m * (b - 1) + m;
    }
  }

  // Big-endian encodings in n bytes coincide exactly for numbers congruent modulo 256^n.
  lemma {:induction false} BigEndianCongruence(n: nat, v: nat, w: nat)
    ensures BigEndian(n, v) == BigEndian(n, w) <==> v % Pow256(n) == w % Pow256(n)
    decreases n
  {
    if n > 0 {
      BigEndianCongruence(n - 1, v / 256, w / 256);
      ModSplit(v, Pow256(n - 1));
      ModSplit(w, Pow256(n - 1));
      var a, b := BigEndian(n - 1, v / 256), BigEndian(n - 1, w / 256);
      assert (a + [v % 256])[..n - 1] == a && (b + [w % 256])[..n - 1] == b;
      assert (a + [v % 256])[n - 1] == v % 256 && (b + [w % 256])[n - 1] == w % 256;
    }
  }

  // The number that bytes stand for, most significant first
  function Number(b: Bytes): int {
    if b == [] then 0 else 256 * Number(b[..|b| - 1]) + b[|b| - 1]
  }

  // Decoding an encoding gives the number back, modulo 256^n, and every element is a byte.
  lemma {:induction false} BigEndianDecodes(n: nat, v: nat)
    ensures Number(BigEndian(n, v)) == v % Pow256(n)
    ensures forall i :: 0 <= i < n ==> 0 <= BigEndian(n, v)[i] < 256
    decreases n
  {
    if n > 0 {
      BigEndianDecodes(n - 1, v / 256);
      ModSplit(v, Pow256(n - 1));
      assert BigEndian(n, v)[..n - 1] == BigEndian(n - 1, v / 256);
    }
  }

  lemma {:induction false} BigEndianInjective(n: nat, v: nat, w: nat)
    requires v < Pow256(n) && w < Pow256(n) && BigEndian(n, v) == BigEndian(n, w)
    ensures v == w
  {
    BigEndianCongruence(n, v, w);
    hide Pow256, BigEndian;
    RemainderIs(v, Pow256(n), 0, v);
    RemainderIs(w, Pow256(n), 0, w);
  }

  lemma {:induction false} PowersUsed()
    ensures Pow256(4) == UINT32 && Pow256(8) == UINT64
  {
    assert Pow256(2) == 0x1_0000;
    assert Pow256(4) == UINT32;
    assert Pow256(6) == 0x1_0000_0000_0000;
  }

  predicate NoDuplicates<T(==)>(s: seq<T>) {
    forall i, j :: 0 <= i < j < |s| ==> s[i] != s[j]
  }

  ghost function Members<T>(s: seq<T>): set<T> {
    set x | x in s
  }

  lemma {:induction false} DropFirst<T>(s: seq<T>, i: nat)
    requires NoDuplicates(s) && i < |s|
    ensures Members(s[i..]) - {s[i]} == Members(s[i + 1..])
  {
    assert s[i..] == [s[i]] + s[i + 1..];
    assert forall j :: i < j < |s| ==> s[j] != s[i];
  }

  lemma {:induction false} DistinctCount<T>(s: seq<T>)
    requires NoDuplicates(s)
    ensures |Members(s)| == |s|
    decreases |s|
  {
    if s != [] {
      DropFirst(s, 0);
      DistinctCount(s[1..]);
      assert s[0..] == s;
      assert s[0] in Members(s);
    }
  }
}
