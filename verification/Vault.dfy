// Shamir secret sharing over GF(2^8) with secret-keyed shard checksums.
module Vault {
  import opened Common
  import opened GF256
  import opened Polynomials

  // Bytes that take part in the field arithmetic
  type Octets = seq<bv8>

  datatype Error =
    | EmptySecret | InvalidParameters
    | TooFewShards | NoShards | ZeroIndex | DuplicateIndex | BadThreshold | EmptyValue
    | IndexOutOfRange // the run-time panic on a shard shorter than the first one
    | ChecksumMismatch

  datatype Shard = Shard(index: bv8, value: Octets, checksum: Octets)

  // SHA-256 and HMAC-SHA256, as whatever functions the platform supplies
  datatype Hashing = Hashing(sha: Octets -> Octets, mac: (Octets, Octets) -> Octets)

  ghost predicate CollisionFree(h: Hashing) {
    && (forall a, b :: h.sha(a) == h.sha(b) ==> a == b)
    && (forall k, m, l, n :: h.mac(k, m) == h.mac(l, n) ==> k == l && m == n)
  }

  // The bytes of an ASCII text
  function AsciiOctets(s: string): (b: Octets)
    requires forall i :: 0 <= i < |s| ==> s[i] as int < 128
    ensures |b| == |s|
  {
    seq(|s|, i requires 0 <= i < |s| => (s[i] as int) as bv8)
  }

  const KEY_LABEL: Octets := AsciiOctets("qs-shard-integrity-v1:")

  function ShardHmacKey(h: Hashing, secret: Octets): Octets {
    h.sha(KEY_LABEL + secret)
  }

  function ShardChecksum(h: Hashing, index: bv8, value: Octets, key: Octets): Octets {
    h.mac(key, [index] + value)
  }

  // The label is ASCII; the key is the hash of label and secret, the checksum covers index and value.
  lemma {:induction false} ChecksumLayout(h: Hashing, index: bv8, value: Octets, secret: Octets)
    ensures
      exists hashed: Octets, covered: Octets ::
        && ShardChecksum(h, index, value, ShardHmacKey(h, secret)) == h.mac(h.sha(hashed), covered)
        && |hashed| == 22 + |secret| && hashed[22..] == secret
        && (forall i :: 0 <= i < 22 ==> hashed[i] as int == "qs-shard-integrity-v1:"[i] as int)
        && |covered| == 1 + |value| && covered[0] == index && covered[1..] == value
  {
    var hashed, covered := KEY_LABEL + secret, [index] + value;
    LabelIsAscii();
    assert ShardChecksum(h, index, value, ShardHmacKey(h, secret)) == h.mac(h.sha(hashed), covered);
    assert hashed[22..] == secret && covered[1..] == value;
  }

  lemma {:induction false} LabelIsAscii()
    ensures |KEY_LABEL| == 22
    ensures forall i :: 0 <= i < 22 ==> KEY_LABEL[i] as int == "qs-shard-integrity-v1:"[i] as int
  {
    var tag := "qs-shard-integrity-v1:";
    forall i | 0 <= i < 22
      ensures KEY_LABEL[i] as int == tag[i] as int
    {
      ByteValue(tag[i] as int);
    }
  }

  // ---------- Splitting ----------

  // The x-coordinate of shard number si, counted from zero
  function ShardIndex(si: nat): bv8 {
    (((si + 1) * 2) % 256) as bv8
  }

  predicate Rectangular(coeffs: seq<Octets>, width: nat) {
    forall i :: 0 <= i < |coeffs| ==> |coeffs[i]| == width
  }

  // The polynomial that hides byte bi of the secret
  function Column(coeffs: seq<Octets>, bi: nat): (c: seq<bv8>)
    requires forall i :: 0 <= i < |coeffs| ==> bi < |coeffs[i]|
    ensures |c| == |coeffs|
  {
    seq(|coeffs|, i requires 0 <= i < |coeffs| => coeffs[i][bi])
  }

  function ShardValue(coeffs: seq<Octets>, width: nat, x: bv8): (v: Octets)
    requires Rectangular(coeffs, width)
    ensures |v| == width
  {
    seq(width, bi requires 0 <= bi < width => Eval(Column(coeffs, bi), x))
  }

  function ShardAt(h: Hashing, coeffs: seq<Octets>, si: nat): Shard
    requires coeffs != [] && Rectangular(coeffs, |coeffs[0]|)
  {
    var x := ShardIndex(si);
    var v := ShardValue(coeffs, |coeffs[0]|, x);
    Shard(x, v, ShardChecksum(h, x, v, ShardHmacKey(h, coeffs[0])))
  }

  function Shards(h: Hashing, coeffs: seq<Octets>, n: nat): (s: seq<Shard>)
    requires coeffs != [] && Rectangular(coeffs, |coeffs[0]|)
    ensures |s| == n
  {
    seq(n, si requires 0 <= si < n => ShardAt(h, coeffs, si))
  }

  predicate GoodParameters(secret: Octets, n: int, k: int) {
    secret != [] && 2 <= k <= n <= 255
  }

  // random holds the k-1 rows that the random source delivers, one byte per secret byte.
  method Split(h: Hashing, secret: Octets, n: int, k: int, random: seq<Octets>) returns (r: Result<seq<Shard>, Error>)
    requires GoodParameters(secret, n, k) ==> |random| == k - 1 && Rectangular(random, |secret|)
    ensures r.Ok? <==> GoodParameters(secret, n, k)
    ensures r.Ok? <==> |secret| > 0 && 2 <= k <= n <= 255
    ensures r.Ok? ==> r.value == Shards(h, [secret] + random, n)
    ensures r.Err? ==> r.error == if secret == [] then EmptySecret else InvalidParameters
  {
    hide Mul;
    if |secret| == 0 {
      return Err(EmptySecret);
    }
    if k < 2 || k > n || n > 255 {
      return Err(InvalidParameters);
    }
    var coeffs := [secret];
    for i := 1 to k
      invariant coeffs == [secret] + random[..i - 1]
    {
      coeffs := coeffs + [random[i - 1]];
    }
    assert coeffs == [secret] + random;
    var hmacKey := ShardHmacKey(h, secret);
    var shards: seq<Shard> := [];
    for si := 0 to n
      invariant shards == Shards(h, coeffs, si)
    {
      var x := (((si + 1) * 2) % 256) as bv8;
      var value := new bv8[|secret|];
      for bi := 0 to |secret|
        invariant forall b :: 0 <= b < bi ==> value[b] == Eval(Column(coeffs, b), x)
      {
        var result := Horner(coeffs, bi, x);
        value[bi] := result;
      }
      assert value[..] == ShardValue(coeffs, |secret|, x);
      shards := shards + [Shard(x, value[..], ShardChecksum(h, x, value[..], hmacKey))];
    }
    return Ok(shards);
  }

  // The innermost loop of Split: the coefficients from the highest down to the constant term
  method Horner(coeffs: seq<Octets>, bi: nat, x: bv8) returns (result: bv8)
    requires forall i :: 0 <= i < |coeffs| ==> bi < |coeffs[i]|
    ensures result == Eval(Column(coeffs, bi), x)
  {
    hide Mul;
    ghost var c := Column(coeffs, bi);
    result := 0;
    for ci := |coeffs| downto 0
      invariant result == Eval(c[ci..], x)
    {
      assert c[ci..][1..] == c[ci + 1..];
      result := GfMul(result, x);
      result := result ^ coeffs[ci][bi];
    }
    assert c[0..] == c;
  }

  // ---------- Reconstruction ----------

  function Indices(shards: seq<Shard>): (xs: seq<bv8>)
    ensures |xs| == |shards|
  {
    seq(|shards|, i requires 0 <= i < |shards| => shards[i].index)
  }

  // The first structural fault at or after position i
  function StructureError(shards: seq<Shard>, i: nat): Option<Error>
    requires i <= |shards|
    decreases |shards| - i
  {
    if i == |shards| then None
    else if shards[i].index == 0 then Some(ZeroIndex)
    else if shards[i].index in Indices(shards[..i]) then Some(DuplicateIndex)
    else StructureError(shards, i + 1)
  }

  predicate Usable(shards: seq<Shard>) {
    NoDuplicates(Indices(shards)) && 0 !in Indices(shards)
  }

  predicate LongEnough(active: seq<Shard>, width: nat) {
    forall i :: 0 <= i < |active| ==> width <= |active[i].value|
  }

  function ByteColumn(active: seq<Shard>, bi: nat): (ys: seq<bv8>)
    requires LongEnough(active, bi + 1)
    ensures |ys| == |active|
  {
    seq(|active|, i requires 0 <= i < |active| => active[i].value[bi])
  }

  // What interpolation at zero gives for these shards
  function Candidate(active: seq<Shard>, width: nat): (s: Octets)
    requires LongEnough(active, width)
    ensures |s| == width
  {
    seq(width, bi requires 0 <= bi < width => LagrangeSum(Indices(active), ByteColumn(active, bi), |active|))
  }

  predicate ChecksumsMatch(h: Hashing, shards: seq<Shard>, secret: Octets) {
    forall i :: 0 <= i < |shards| ==>
      shards[i].checksum == ShardChecksum(h, shards[i].index, shards[i].value, ShardHmacKey(h, secret))
  }

  function Reconstruction(h: Hashing, shards: seq<Shard>, k: int): Result<Octets, Error> {
    if |shards| < k then Err(TooFewShards)
    else if shards == [] then Err(NoShards)
    else
      var fault := StructureError(shards, 0);
      if fault.Some? then Err(fault.value)
      else if k <= 0 then Err(BadThreshold)
      else
        var active := shards[..k];
        var width := |active[0].value|;
        if width == 0 then Err(EmptyValue)
        else if !LongEnough(active, width) then Err(IndexOutOfRange)
        else
          var secret := Candidate(active, width);
          if ChecksumsMatch(h, shards, secret) then Ok(secret) else Err(ChecksumMismatch)
  }

  method Reconstruct(h: Hashing, shards: seq<Shard>, k: int) returns (r: Result<Octets, Error>)
    ensures r == Reconstruction(h, shards, k)
  {
    hide Mul, Inv, LagrangeSum;
    if |shards| < k {
      return Err(TooFewShards);
    }
    if |shards| == 0 {
      return Err(NoShards);
    }
    var seen: set<bv8> := {};
    for i := 0 to |shards|
      invariant forall x :: x in seen <==> x in Indices(shards[..i])
      invariant StructureError(shards, 0) == StructureError(shards, i)
    {
      if shards[i].index == 0 {
        return Err(ZeroIndex);
      }
      if shards[i].index in seen {
        return Err(DuplicateIndex);
      }
      assert Indices(shards[..i + 1]) == Indices(shards[..i]) + [shards[i].index];
      seen := seen + {shards[i].index};
    }
    if k <= 0 {
      return Err(BadThreshold);
    }
    var active := shards[..k];
    if |active[0].value| == 0 {
      return Err(EmptyValue);
    }
    StructureSound(shards);
    ghost var xs := Indices(active);
    PrefixUsable(shards, k);
    var secretLen := |active[0].value|;
    var secret := new bv8[secretLen];
    for bi := 0 to secretLen
      invariant LongEnough(active, bi)
      invariant forall b :: 0 <= b < bi ==> secret[b] == LagrangeSum(xs, ByteColumn(active, b), k)
    {
      var result := InterpolateByte(active, bi);
      if result.None? {
        return Err(IndexOutOfRange);
      }
      secret[bi] := result.value;
    }
    assert secret[..] == Candidate(active, secretLen);
    var hmacKey := ShardHmacKey(h, secret[..]);
    for i := 0 to |shards|
      invariant secret[..] == Candidate(active, secretLen)
      invariant ChecksumsMatch(h, shards[..i], secret[..])
    {
      var expected := ShardChecksum(h, shards[i].index, shards[i].value, hmacKey);
      if shards[i].checksum != expected {
        for j := 0 to secretLen {
          secret[j] := 0;
        }
        return Err(ChecksumMismatch);
      }
    }
    return Ok(secret[..]);
  }

  // One pass of the outer interpolation loop; None is the out-of-range panic.
  method InterpolateByte(active: seq<Shard>, bi: nat) returns (r: Option<bv8>)
    requires Usable(active)
    ensures r.Some? <==> LongEnough(active, bi + 1)
    ensures r.Some? ==> r.value == LagrangeSum(Indices(active), ByteColumn(active, bi), |active|)
  {
    hide Mul, Weight;
    ghost var xs := Indices(active);
    var result: bv8 := 0;
    for i := 0 to |active|
      invariant LongEnough(active[..i], bi + 1)
      invariant LongEnough(active, bi + 1) ==> result == LagrangeSum(xs, ByteColumn(active, bi), i)
    {
      var lagrange := LagrangeWeight(active, i);
      if bi >= |active[i].value| {
        return None;
      }
      var term := GfMul(active[i].value[bi], lagrange);
      result := result ^ term;
    }
    return Some(result);
  }

  method LagrangeWeight(active: seq<Shard>, i: nat) returns (lagrange: bv8)
    requires Usable(active) && i < |active|
    ensures lagrange == Weight(Indices(active), active[i].index)
  {
    hide Add, Mul, Inv;
    ghost var xs := Indices(active);
    var x := active[i].index;
    var numerator, denominator: bv8 := 1, 1;
    for j := 0 to |active|
      invariant numerator == SkipProduct(xs[..j], x, 0)
      invariant denominator == SkipProduct(xs[..j], x, x)
    {
      var y := active[j].index;
      assert xs[..j + 1][..j] == xs[..j] && xs[..j + 1][j] == y;
      assert xs[i] == x && xs[j] == y;
      if i != j {
        assert x != y;
        AddZero(y);
        AddIsXor(x, y);
        numerator := GfMul(numerator, y);
        denominator := GfMul(denominator, x ^ y);
      }
    }
    assert xs[..|active|] == xs;
    SkipProductNonZero(xs, x, x);
    var inverse := GfInv(denominator);
    lagrange := GfMul(numerator, inverse);
  }

  lemma AddIsXor(a: bv8, b: bv8)
    ensures Add(a, b) == a ^ b
  {}

  // The byte of a shard, its index and its checksum, without the auxiliary functions
  lemma {:induction false} ShardContents(h: Hashing, coeffs: seq<Octets>, n: nat, si: nat, bi: nat)
    requires coeffs != [] && Rectangular(coeffs, |coeffs[0]|) && si < n && bi < |coeffs[0]|
    ensures
      var s := Shards(h, coeffs, n)[si];
      && s.index as int == 2 * (si + 1) % 256 && |s.value| == |coeffs[0]|
      && s.value[bi] == Eval(seq(|coeffs|, i requires 0 <= i < |coeffs| => coeffs[i][bi]), s.index)
      && s.checksum == h.mac(h.sha(KEY_LABEL + coeffs[0]), [s.index] + s.value)
  {
    hide Eval;
    ByteValue(((si + 1) * 2) % 256);
    assert Column(coeffs, bi) == seq(|coeffs|, i requires 0 <= i < |coeffs| => coeffs[i][bi]);
  }

  // What Reconstruct reports: the first thing that is wrong, and the secret only when nothing is.
  lemma {:induction false} ReconstructionExplained(h: Hashing, shards: seq<Shard>, k: int)
    ensures
      var r, short := Reconstruction(h, shards, k), |shards| < k;
      && (r == Err(TooFewShards) <==> short)
      && (r == Err(NoShards) <==> !short && shards == [])
      && (r == Err(ZeroIndex) ==> exists i :: 0 <= i < |shards| && shards[i].index == 0 && Usable(shards[..i]))
      && (r == Err(DuplicateIndex) ==>
            exists j, i :: 0 <= j < i < |shards| && shards[j].index == shards[i].index && Usable(shards[..i]))
      && (!short && shards != [] && !Usable(shards) ==> r == Err(ZeroIndex) || r == Err(DuplicateIndex))
      && (r == Err(BadThreshold) <==> !short && shards != [] && Usable(shards) && k <= 0)
      && (!short && shards != [] && Usable(shards) && k > 0 ==>
            var active, width := shards[..k], |shards[0].value|;
            && (r == Err(EmptyValue) <==> width == 0)
            && (r == Err(IndexOutOfRange) <==> width > 0 && exists i :: 0 <= i < k && |shards[i].value| < width)
            && (width > 0 && LongEnough(active, width) ==>
                  r == if ChecksumsMatch(h, shards, Candidate(active, width)) then Ok(Candidate(active, width))
                       else Err(ChecksumMismatch)))
  {
    hide Candidate, ChecksumsMatch, Indices;
    StructureSound(shards);
    FirstFault(shards, 0);
    if 0 < k <= |shards| {
      assert shards[..k][0] == shards[0];
      assert forall i :: 0 <= i < k ==> shards[..k][i] == shards[i];
    }
  }

  lemma {:induction false} FirstFault(shards: seq<Shard>, i: nat)
    requires i <= |shards| && Usable(shards[..i])
    ensures
      var f := StructureError(shards, i);
      && (f.None? || f == Some(ZeroIndex) || f == Some(DuplicateIndex))
      && (f == Some(ZeroIndex) ==> exists j :: i <= j < |shards| && shards[j].index == 0 && Usable(shards[..j]))
      && (f == Some(DuplicateIndex) ==>
            exists l, j :: 0 <= l < j < |shards| && shards[l].index == shards[j].index && Usable(shards[..j]))
    decreases |shards| - i
  {
    if i < |shards| {
      var p := Indices(shards[..i]);
      if shards[i].index in p {
        var l :| 0 <= l < i && p[l] == shards[i].index;
        assert shards[l].index == shards[i].index;
      } else if shards[i].index != 0 {
        assert Indices(shards[..i + 1]) == p + [shards[i].index];
        FirstFault(shards, i + 1);
      }
    }
  }

  // ---------- Structural facts ----------

  lemma {:induction false} StructureFrom(shards: seq<Shard>, i: nat)
    requires i <= |shards| && Usable(shards[..i])
    ensures StructureError(shards, i) == None <==> Usable(shards)
    decreases |shards| - i
  {
    var xs := Indices(shards);
    if i == |shards| {
      assert shards[..i] == shards;
    } else {
      assert xs[i] == shards[i].index;
      var p := Indices(shards[..i]);
      if shards[i].index in p {
        var j :| 0 <= j < i && p[j] == shards[i].index;
        assert xs[j] == xs[i];
      } else if shards[i].index != 0 {
        var q := Indices(shards[..i + 1]);
        assert q == p + [shards[i].index];
        StructureFrom(shards, i + 1);
      }
    }
  }

  lemma StructureSound(shards: seq<Shard>)
    ensures StructureError(shards, 0) == None <==> Usable(shards)
  {
    StructureFrom(shards, 0);
  }

  lemma PrefixUsable(shards: seq<Shard>, k: nat)
    requires k <= |shards| && Usable(shards)
    ensures Usable(shards[..k])
  {
    var xs, ys := Indices(shards), Indices(shards[..k]);
    assert forall i :: 0 <= i < k ==> ys[i] == xs[i];
  }

  // The n indices that Split hands out are distinct and non-zero exactly up to n = 127.
  lemma IndexBound(n: nat)
    ensures (forall i, j :: 0 <= i < j < n ==> ShardIndex(i) != ShardIndex(j))
         && (forall i :: 0 <= i < n ==> ShardIndex(i) != 0)
       <==> n <= 127
  {
    if n > 127 {
      assert ShardIndex(127) == 0;
    }
    forall i, j | 0 <= i < j < n <= 127
      ensures ShardIndex(i) != ShardIndex(j)
    {
      SmallIndex(i);
      SmallIndex(j);
    }
    forall i | 0 <= i < n <= 127
      ensures ShardIndex(i) != 0
    {
      SmallIndex(i);
    }
  }

  lemma SmallIndex(i: nat)
    requires i < 127
    ensures ShardIndex(i) as int == 2 * (i + 1)
  {
    ByteValue(2 * (i + 1));
    assert ((i + 1) * 2) % 256 == 2 * (i + 1);
  }

  lemma {:induction false} ByteValue(v: nat)
    requires v < 256
    ensures (v as bv8) as int == v
  {
    if v > 0 {
      ByteValue(v - 1);
      Successor((v - 1) as bv8);
      ByteRoundTrip(((v - 1) as bv8) + 1);
    }
  }

  lemma Successor(b: bv8)
    requires b < 255
    ensures (b + 1) as int == b as int + 1
  {}

  lemma ByteRoundTrip(b: bv8)
    ensures (b as int) as bv8 == b
  {}

  // ---------- Round trip ----------

  predicate WellFormed(coeffs: seq<Octets>) {
    coeffs != [] && coeffs[0] != [] && Rectangular(coeffs, |coeffs[0]|)
  }

  ghost predicate Dealt(h: Hashing, coeffs: seq<Octets>, n: nat, shards: seq<Shard>)
    requires WellFormed(coeffs)
  {
    forall i :: 0 <= i < |shards| ==> shards[i] in Shards(h, coeffs, n)
  }

  lemma DealtShard(h: Hashing, coeffs: seq<Octets>, n: nat, s: Shard)
    requires WellFormed(coeffs) && s in Shards(h, coeffs, n)
    ensures s.value == ShardValue(coeffs, |coeffs[0]|, s.index)
    ensures s.checksum == ShardChecksum(h, s.index, s.value, ShardHmacKey(h, coeffs[0]))
  {
    var si :| 0 <= si < n && Shards(h, coeffs, n)[si] == s;
  }

  lemma DealtCandidate(h: Hashing, coeffs: seq<Octets>, n: nat, active: seq<Shard>)
    requires WellFormed(coeffs) && Dealt(h, coeffs, n, active)
    requires |active| == |coeffs| && NoDuplicates(Indices(active))
    ensures LongEnough(active, |coeffs[0]|) && |active[0].value| == |coeffs[0]|
    ensures Candidate(active, |coeffs[0]|) == coeffs[0]
  {
    hide Add, Mul, Weight;
    var width, xs := |coeffs[0]|, Indices(active);
    forall i | 0 <= i < |active|
      ensures active[i].value == ShardValue(coeffs, width, active[i].index)
    {
      DealtShard(h, coeffs, n, active[i]);
    }
    forall bi | 0 <= bi < width
      ensures Candidate(active, width)[bi] == coeffs[0][bi]
    {
      var c := Column(coeffs, bi);
      assert ByteColumn(active, bi) == Values(c, xs);
      LagrangeAtZero(xs, c);
      ValueAtZero(c, 0);
    }
  }

  // Any list of at least k dealt shards gives back the secret exactly when its indices are
  // distinct and non-zero.
  lemma RoundTripExactly(h: Hashing, coeffs: seq<Octets>, n: nat, k: nat, shards: seq<Shard>)
    requires WellFormed(coeffs) && |coeffs| == k && 2 <= k <= n <= 255
    requires Dealt(h, coeffs, n, shards) && |shards| >= k
    ensures Reconstruction(h, shards, k) == Ok(coeffs[0]) <==> Usable(shards)
  {
    hide Add, Mul, Weight, LagrangeSum;
    StructureSound(shards);
    if Usable(shards) {
      var active := shards[..k];
      PrefixUsable(shards, k);
      DealtCandidate(h, coeffs, n, active);
      forall i | 0 <= i < |shards|
        ensures shards[i].checksum == ShardChecksum(h, shards[i].index, shards[i].value, ShardHmacKey(h, coeffs[0]))
      {
        DealtShard(h, coeffs, n, shards[i]);
      }
    }
  }

  // Up to 127 shards, any k or more different ones in any order give back the secret.
  lemma RoundTrip(h: Hashing, coeffs: seq<Octets>, n: nat, k: nat, shards: seq<Shard>)
    requires WellFormed(coeffs) && |coeffs| == k && 2 <= k <= n <= 127
    requires Dealt(h, coeffs, n, shards) && |shards| >= k && NoDuplicates(shards)
    ensures Reconstruction(h, shards, k) == Ok(coeffs[0])
  {
    hide Reconstruction, ShardValue, ShardIndex;
    var xs, all := Indices(shards), Shards(h, coeffs, n);
    IndexBound(n);
    forall i | 0 <= i < |shards|
      ensures xs[i] != 0
    {
      var a :| 0 <= a < n && all[a] == shards[i];
      assert ShardIndex(a) == xs[i];
    }
    forall i, j | 0 <= i < j < |shards|
      ensures xs[i] != xs[j]
    {
      var a :| 0 <= a < n && all[a] == shards[i];
      var b :| 0 <= b < n && all[b] == shards[j];
      assert ShardIndex(a) == xs[i] && ShardIndex(b) == xs[j];
      assert a != b;
      if a < b {
        assert ShardIndex(a) != ShardIndex(b);
      } else {
        assert ShardIndex(b) != ShardIndex(a);
      }
    }
    RoundTripExactly(h, coeffs, n, k, shards);
  }

  function Picked(all: seq<Shard>, positions: seq<nat>): (s: seq<Shard>)
    requires forall i :: 0 <= i < |positions| ==> positions[i] < |all|
    ensures |s| == |positions|
  {
    seq(|positions|, i requires 0 <= i < |positions| => all[positions[i]])
  }

  // At least k different positions among n
  predicate Picks(positions: seq<nat>, n: nat, k: nat) {
    && |positions| >= k
    && (forall i :: 0 <= i < |positions| ==> positions[i] < n)
    && NoDuplicates(positions)
  }

  lemma PickedDistinct(h: Hashing, coeffs: seq<Octets>, n: nat, positions: seq<nat>)
    requires WellFormed(coeffs) && n <= 127 && Picks(positions, n, 0)
    ensures Dealt(h, coeffs, n, Picked(Shards(h, coeffs, n), positions))
    ensures NoDuplicates(Picked(Shards(h, coeffs, n), positions))
  {
    hide ShardValue, ShardIndex;
    var all := Shards(h, coeffs, n);
    var shards := Picked(all, positions);
    IndexBound(n);
    forall i, j | 0 <= i < j < |shards|
      ensures shards[i] != shards[j]
    {
      var a, b := positions[i], positions[j];
      assert shards[i] == all[a] && shards[j] == all[b];
      assert ShardIndex(if a < b then a else b) != ShardIndex(if a < b then b else a);
    }
  }

  // Any k or more of the shards give back the secret, in any order, exactly when n is at most 127.
  lemma RoundTripBound(h: Hashing, coeffs: seq<Octets>, n: nat, k: nat)
    requires WellFormed(coeffs) && |coeffs| == k && 2 <= k <= n <= 255
    ensures (forall ps: seq<nat> :: Picks(ps, n, k) ==>
               Reconstruction(h, Picked(Shards(h, coeffs, n), ps), k) == Ok(coeffs[0]))
       <==> n <= 127
  {
    hide Reconstruction, ShardValue, ShardIndex;
    if n <= 127 {
      forall ps: seq<nat> | Picks(ps, n, k)
        ensures Reconstruction(h, Picked(Shards(h, coeffs, n), ps), k) == Ok(coeffs[0])
      {
        PickedDistinct(h, coeffs, n, ps);
        RoundTrip(h, coeffs, n, k, Picked(Shards(h, coeffs, n), ps));
      }
    } else {
      var everyone := seq(n, i requires 0 <= i < n => i);
      assert Picks(everyone, n, k);
      assert Picked(Shards(h, coeffs, n), everyone) == Shards(h, coeffs, n);
      AllShardsRefused(h, coeffs, n, k);
    }
  }

  // From 128 shards on, handing back everything Split produced is refused.
  lemma AllShardsRefused(h: Hashing, coeffs: seq<Octets>, n: nat, k: nat)
    requires WellFormed(coeffs) && |coeffs| == k && 2 <= k <= n && 128 <= n <= 255
    ensures Reconstruction(h, Shards(h, coeffs, n), k).Err?
  {
    hide LagrangeSum;
    var all := Shards(h, coeffs, n);
    StructureSound(all);
    assert 256 % 256 == 0;
    assert ShardIndex(127) == 0;
    hide ShardIndex;
    assert Indices(all)[127] == 0;
  }

  // ---------- Secrecy as counting ----------

  // The rows of coefficients under which the secret explains the values seen at xs
  function RowsFor(xs: seq<bv8>, values: seq<Octets>, secret: Octets): (rows: seq<Octets>)
    requires |xs| == |values| && Rectangular(values, |secret|)
    ensures |rows| == |xs| && Rectangular(rows, |secret|)
  {
    seq(|xs|, r requires 0 <= r < |xs| =>
      seq(|secret|, bi requires 0 <= bi < |secret| => Interpolant([0] + xs, [secret[bi]] + Column(values, bi))[r + 1]))
  }

  predicate Explains(rows: seq<Octets>, secret: Octets, xs: seq<bv8>, values: seq<Octets>)
    requires |xs| == |values| && Rectangular(rows, |secret|)
  {
    forall i :: 0 <= i < |xs| ==> ShardValue([secret] + rows, |secret|, xs[i]) == values[i]
  }

  // At k-1 distinct non-zero indices, whatever bytes are seen, every candidate secret is
  // explained by one and only one choice of the random rows.
  lemma EverySecretOneWay(xs: seq<bv8>, values: seq<Octets>, secret: Octets, rows: seq<Octets>)
    requires NoDuplicates(xs) && 0 !in xs
    requires |xs| == |values| == |rows|
    requires Rectangular(values, |secret|) && Rectangular(rows, |secret|)
    ensures Explains(rows, secret, xs, values) <==> rows == RowsFor(xs, values, secret)
  {
    hide RowsFor, Explains;
    if Explains(rows, secret, xs, values) {
      ExplainedByRows(xs, values, secret, rows);
    }
    if rows == RowsFor(xs, values, secret) {
      RowsExplain(xs, values, secret);
    }
  }

  lemma WithZero(xs: seq<bv8>)
    requires NoDuplicates(xs) && 0 !in xs
    ensures NoDuplicates([0] + xs)
  {
    assert forall j :: 1 <= j < |xs| + 1 ==> ([0] + xs)[j] == xs[j - 1];
  }

  lemma ExplainedByRows(xs: seq<bv8>, values: seq<Octets>, secret: Octets, rows: seq<Octets>)
    requires NoDuplicates(xs) && 0 !in xs
    requires |xs| == |values| == |rows|
    requires Rectangular(values, |secret|) && Rectangular(rows, |secret|)
    requires Explains(rows, secret, xs, values)
    ensures rows == RowsFor(xs, values, secret)
  {
    hide Add, Mul, Inv, Eval, Interpolant;
    var coeffs := [secret] + rows;
    WithZero(xs);
    forall r, bi | 0 <= r < |rows| && 0 <= bi < |secret|
      ensures rows[r][bi] == RowsFor(xs, values, secret)[r][bi]
    {
      var c := Column(coeffs, bi);
      assert forall i :: 0 <= i < |xs| ==> Eval(c, xs[i]) == ShardValue(coeffs, |secret|, xs[i])[bi];
      OneColumn(xs, Column(values, bi), c, secret[bi]);
      assert rows[r][bi] == c[r + 1];
    }
    assert forall r :: 0 <= r < |rows| ==> rows[r] == RowsFor(xs, values, secret)[r];
  }

  lemma RowsExplain(xs: seq<bv8>, values: seq<Octets>, secret: Octets)
    requires NoDuplicates(xs) && 0 !in xs && |xs| == |values| && Rectangular(values, |secret|)
    ensures Explains(RowsFor(xs, values, secret), secret, xs, values)
  {
    hide Add, Mul, Inv, Eval, Interpolant;
    var coeffs, points := [secret] + RowsFor(xs, values, secret), [0] + xs;
    WithZero(xs);
    forall i, bi | 0 <= i < |xs| && 0 <= bi < |secret|
      ensures ShardValue(coeffs, |secret|, xs[i])[bi] == values[i][bi]
    {
      var c := Interpolant(points, [secret[bi]] + Column(values, bi));
      InterpolantConstant(xs, Column(values, bi), secret[bi]);
      OneColumn(xs, Column(values, bi), c, secret[bi]);
      assert Column(coeffs, bi) == c;
    }
    assert forall i :: 0 <= i < |xs| ==> ShardValue(coeffs, |secret|, xs[i]) == values[i];
  }

  lemma InterpolantConstant(xs: seq<bv8>, ys: seq<bv8>, s: bv8)
    requires |xs| == |ys| && NoDuplicates([0] + xs)
    ensures Interpolant([0] + xs, [s] + ys)[0] == s
  {
    hide Add, Mul, Inv, Eval, Interpolant;
    var c := Interpolant([0] + xs, [s] + ys);
    InterpolantExists([0] + xs, [s] + ys);
    assert ([0] + xs)[0] == 0 && ([s] + ys)[0] == s;
    ConstantTerm(c);
  }

  lemma OneColumn(xs: seq<bv8>, ys: seq<bv8>, c: seq<bv8>, s: bv8)
    requires |xs| == |ys| && |c| == |xs| + 1 && NoDuplicates([0] + xs) && c[0] == s
    ensures Through(c, xs, ys) <==> c == Interpolant([0] + xs, [s] + ys)
  {
    hide Eval, Interpolant, Through, NoDuplicates;
    var points, targets := [0] + xs, [s] + ys;
    var p := Interpolant(points, targets);
    InterpolantExists(points, targets);
    if Through(c, xs, ys) {
      ThroughZeroToo(xs, ys, c);
      SamePolynomial(c, p, points, targets);
    }
    ThroughTail(p, xs, ys, s);
  }

  lemma ThroughTail(c: seq<bv8>, xs: seq<bv8>, ys: seq<bv8>, s: bv8)
    requires |xs| == |ys| && Through(c, [0] + xs, [s] + ys)
    ensures Through(c, xs, ys)
  {
    hide Eval;
    var points, targets := [0] + xs, [s] + ys;
    assert forall i :: 0 <= i < |xs| ==> points[i + 1] == xs[i] && targets[i + 1] == ys[i];
  }

  lemma ThroughZeroToo(xs: seq<bv8>, ys: seq<bv8>, c: seq<bv8>)
    requires |xs| == |ys| && c != [] && Through(c, xs, ys)
    ensures Through(c, [0] + xs, [c[0]] + ys)
  {
    hide Eval;
    var points, targets := [0] + xs, [c[0]] + ys;
    ConstantTerm(c);
    assert forall i :: 1 <= i < |points| ==> points[i] == xs[i - 1] && targets[i] == ys[i - 1];
  }

  lemma ConstantTerm(c: seq<bv8>)
    requires c != []
    ensures Eval(c, 0) == c[0]
  {
    hide Add, Mul, Eval, Quotient;
    ValueAtZero(c, 0);
  }

  lemma SamePolynomial(c: seq<bv8>, d: seq<bv8>, xs: seq<bv8>, ys: seq<bv8>)
    requires |c| == |d| == |xs| == |ys| && NoDuplicates(xs) && Through(c, xs, ys) && Through(d, xs, ys)
    ensures c == d
  {
    hide Eval, NoDuplicates;
    InterpolantUnique(c, d, xs);
  }

  // ---------- Tamper detection ----------

  // Altering any interpolated byte of one active shard alters the candidate secret.
  lemma TamperedCandidate(active: seq<Shard>, at: nat, t: Shard, width: nat)
    requires Usable(active) && LongEnough(active, width) && at < |active|
    requires t.index == active[at].index && width <= |t.value| && t.value[..width] != active[at].value[..width]
    ensures Candidate(active[at := t], width) != Candidate(active, width)
  {
    hide LagrangeSum;
    var bi :| 0 <= bi < width && t.value[bi] != active[at].value[bi];
    var forged := active[at := t];
    assert Indices(forged) == Indices(active);
    assert ByteColumn(forged, bi) == ByteColumn(active, bi)[at := t.value[bi]];
    AlteredValueShows(Indices(active), ByteColumn(active, bi), at, t.value[bi], |active|);
    assert Candidate(forged, width)[bi] != Candidate(active, width)[bi];
  }

  // Altering one value alters the sum.
  lemma {:induction false} AlteredValueShows(xs: seq<bv8>, ys: seq<bv8>, at: nat, y: bv8, m: nat)
    requires |xs| == |ys| && 0 !in xs && at < m <= |xs| && y != ys[at]
    ensures LagrangeSum(xs, ys[at := y], m) != LagrangeSum(xs, ys, m)
  {
    hide Add, Mul, Weight;
    var zs, w, last := ys[at := y], Weight(xs, xs[m - 1]), m - 1;
    var s, t := LagrangeSum(xs, ys, last), LagrangeSum(xs, zs, last);
    if at == last {
      SumIgnoresRest(xs, ys, zs, last);
      WeightNonZero(xs, xs[last]);
      MulAdd(w, y, ys[at]);
      NoZeroDivisors(Add(y, ys[at]), w);
      AddLaws(y, ys[at], 0);
      CancelLeft(s, Mul(y, w), Mul(ys[at], w));
    } else {
      AlteredValueShows(xs, ys, at, y, last);
      CancelRight(s, t, Mul(ys[last], w));
    }
  }

  lemma {:induction false} SumIgnoresRest(xs: seq<bv8>, ys: seq<bv8>, zs: seq<bv8>, m: nat)
    requires m <= |xs| == |ys| == |zs|
    requires forall i :: 0 <= i < m ==> ys[i] == zs[i]
    ensures LagrangeSum(xs, ys, m) == LagrangeSum(xs, zs, m)
  {
    hide Add, Mul, Weight;
    if m > 0 {
      SumIgnoresRest(xs, ys, zs, m - 1);
    }
  }

  lemma CancelLeft(a: bv8, b: bv8, c: bv8)
    requires Add(b, c) != 0
    ensures Add(a, b) != Add(a, c)
  {
    hide Add;
    AddLaws(b, a, 0);
    AddLaws(a, b, 0);
    AddLaws(c, a, 0);
    AddLaws(a, c, 0);
    AddZero(b);
  }

  lemma CancelRight(a: bv8, b: bv8, c: bv8)
    requires a != b
    ensures Add(a, c) != Add(b, c)
  {
    hide Add;
    AddLaws(a, c, 0);
    AddLaws(b, c, 0);
  }

  // When Reconstruct succeeds on any list at all, one shard that still carries a checksum made
  // by Split pins the result to the secret, and every such shard has its index and value intact.
  lemma GenuineChecksumPinsSecret(h: Hashing, coeffs: seq<Octets>, n: nat, shards: seq<Shard>, k: int, a: nat, s: nat)
    requires CollisionFree(h) && WellFormed(coeffs)
    requires Reconstruction(h, shards, k).Ok?
    requires a < |shards| && s < n && shards[a].checksum == Shards(h, coeffs, n)[s].checksum
    ensures Reconstruction(h, shards, k) == Ok(coeffs[0])
    ensures forall b, t :: 0 <= b < |shards| && 0 <= t < n && shards[b].checksum == Shards(h, coeffs, n)[t].checksum
              ==> shards[b] == Shards(h, coeffs, n)[t]
  {
    hide ShardValue, ShardIndex, Candidate, StructureError;
    var all, secret := Shards(h, coeffs, n), Reconstruction(h, shards, k).value;
    assert ChecksumsMatch(h, shards, secret);
    forall b, t | 0 <= b < |shards| && 0 <= t < n && shards[b].checksum == all[t].checksum
      ensures secret == coeffs[0] && shards[b] == all[t]
    {
      SameChecksum(h, shards[b], all[t], secret, coeffs[0]);
    }
  }

  lemma SameChecksum(h: Hashing, s: Shard, t: Shard, secret: Octets, other: Octets)
    requires CollisionFree(h) && s.checksum == t.checksum
    requires s.checksum == ShardChecksum(h, s.index, s.value, ShardHmacKey(h, secret))
    requires t.checksum == ShardChecksum(h, t.index, t.value, ShardHmacKey(h, other))
    ensures secret == other && s == t
  {
    assert KEY_LABEL + secret == KEY_LABEL + other;
    assert secret == (KEY_LABEL + secret)[|KEY_LABEL|..];
    assert other == (KEY_LABEL + other)[|KEY_LABEL|..];
    assert [s.index] + s.value == [t.index] + t.value;
    assert s.value == ([s.index] + s.value)[1..] && t.value == ([t.index] + t.value)[1..];
    assert s.index == ([s.index] + s.value)[0] && t.index == ([t.index] + t.value)[0];
  }
}
