// Hybrid encryption: the freshness window and the evicting replay cache.
module Hybrid {
  import opened Common

  datatype Encrypted = Encrypted(kem: Bytes, nonce: Bytes, data: Bytes, createdAt: int)

  // ML-KEM with the parsing of keys, and AES-256-GCM; encapsulation takes its randomness and gives the
  // shared secret and the ciphertext.
  datatype Suite = Suite(
    publicOf: Bytes -> Bytes,
    encapsulate: (Bytes, Bytes) -> Option<(Bytes, Bytes)>,
    decapsulate: (Bytes, Bytes) -> Option<Bytes>,
    seal: (Bytes, Bytes, Bytes, Bytes) -> Bytes,
    open: (Bytes, Bytes, Bytes, Bytes) -> Option<Bytes>)

  ghost predicate Correct(d: Suite) {
    && (forall k, n, p, ad :: d.seal(k, n, p, ad) != [] && d.open(k, n, d.seal(k, n, p, ad), ad) == Some(p))
    && (forall dk, r ::
          var e := d.encapsulate(d.publicOf(dk), r);
          e.Some? ==> e.value.1 != [] && d.decapsulate(dk, e.value.1) == Some(e.value.0))
  }

  const NONCE_SIZE := 12
  const SEEN_MAX := 100_000
  const SKEW := 60
  // What an eviction leaves behind
  const KEPT := SEEN_MAX + 1 - SEEN_MAX / 2

  predicate IsInt64(v: int) {
    -MAX_INT64 - 1 <= v <= MAX_INT64
  }

  // The timestamp as additional data: its two's complement in eight bytes
  function EncodeTimestamp(ts: int): (b: Bytes)
    ensures |b| == 8
  {
    BigEndian(8, ts % UINT64)
  }

  lemma {:induction false} EncodeTimestampInjective(a: int, b: int)
    requires IsInt64(a) && IsInt64(b) && EncodeTimestamp(a) == EncodeTimestamp(b)
    ensures a == b
  {
    PowersUsed();
    hide Pow256, BigEndian;
    TwosComplement(a);
    TwosComplement(b);
    BigEndianInjective(8, a % UINT64, b % UINT64);
  }

  // The eight bytes are the two's complement of the timestamp, most significant first.
  lemma {:induction false} TimestampDecodes(ts: int)
    requires IsInt64(ts)
    ensures Number(EncodeTimestamp(ts)) == if ts >= 0 then ts else ts + 0x1_0000_0000_0000_0000
  {
    PowersUsed();
    BigEndianDecodes(8, ts % UINT64);
    hide Pow256, BigEndian, Number;
    TwosComplement(ts);
    RemainderIs(ts % UINT64, UINT64, 0, ts % UINT64);
  }

  lemma {:induction false} TwosComplement(v: int)
    requires IsInt64(v)
    ensures v % UINT64 == if v >= 0 then v else v + UINT64
  {}

  predicate ZeroNonce(nonce: Bytes) {
    nonce == seq(NONCE_SIZE, i => 0)
  }

  // One message, sealed together with the second of its creation
  function Encrypt(d: Suite, ek: Bytes, plain: Bytes, random: Bytes, nonce: Bytes, now: Time): Option<Encrypted> {
    var e := d.encapsulate(ek, random);
    if e.None? || ZeroNonce(nonce) then None
    else
      var (secret, ct) := e.value;
      var createdAt := now / SECOND;
      Some(Encrypted(ct, nonce, d.seal(secret, nonce, plain, EncodeTimestamp(createdAt)), createdAt))
  }

  // The stamp is the second in which the message was made, and only a bad key or a zero nonce is refused.
  lemma {:induction false} EncryptStamps(d: Suite, ek: Bytes, plain: Bytes, random: Bytes, nonce: Bytes, now: Time)
    ensures
      var e := Encrypt(d, ek, plain, random, nonce, now);
      && (e.None? <==> d.encapsulate(ek, random).None? || (|nonce| == 12 && forall i :: 0 <= i < 12 ==> nonce[i] == 0))
      && (e.Some? ==>
            && e.value.nonce == nonce && e.value.kem == d.encapsulate(ek, random).value.1
            && now - SECOND < e.value.createdAt * SECOND <= now)
  {
    assert ZeroNonce(nonce) <==> |nonce| == 12 && forall i :: 0 <= i < 12 ==> nonce[i] == 0;
  }

  // The plaintext, when the message is complete and authentic under this private key
  function Plaintext(d: Suite, dk: Bytes, e: Encrypted): Option<Bytes> {
    if e.kem == [] || e.nonce == [] || e.data == [] then None
    else
      var secret := d.decapsulate(dk, e.kem);
      if secret.None? || |e.nonce| != NONCE_SIZE || ZeroNonce(e.nonce) then None
      else d.open(secret.value, e.nonce, e.data, EncodeTimestamp(e.createdAt))
  }

  // Incomplete messages, nonces of another length and the zero nonce are refused, and what opens was opened with
  // the decapsulated secret and the stamp.
  lemma {:induction false} PlaintextExactly(d: Suite, dk: Bytes, e: Encrypted, plain: Bytes)
    ensures Plaintext(d, dk, e) == Some(plain) <==>
              && |e.kem| > 0 && |e.nonce| == 12 && (exists i :: 0 <= i < 12 && e.nonce[i] != 0) && |e.data| > 0
              && d.decapsulate(dk, e.kem).Some?
              && d.open(d.decapsulate(dk, e.kem).value, e.nonce, e.data, EncodeTimestamp(e.createdAt)) == Some(plain)
  {
    hide EncodeTimestamp;
    assert |e.nonce| == 12 ==> (ZeroNonce(e.nonce) <==> forall i :: 0 <= i < 12 ==> e.nonce[i] == 0);
  }

  // time.Time.Sub saturates at the ends of the int64 range.
  function Saturate(v: int): int {
    if v > MAX_INT64 then MAX_INT64 else if v < -MAX_INT64 - 1 then -MAX_INT64 - 1 else v
  }

  // A maxAge that is not positive switches the check off.
  predicate Fresh(maxAge: int, now: Time, createdAt: int) {
    maxAge > 0 ==>
      && createdAt > 0
      && Saturate(now - createdAt * SECOND) <= maxAge
      && createdAt <= now / SECOND + SKEW
  }

  // ---------- The cache as a list, and the history that it forgets ----------

  datatype Acceptance = Acceptance(kem: Bytes, createdAt: int, now: Time)

  datatype State = State(recent: seq<Bytes>, accepted: seq<Acceptance>)

  const START := State([], [])

  function Remember(recent: seq<Bytes>, key: Bytes): (r: seq<Bytes>)
  {
    var all := recent + [key];
    if |all| > SEEN_MAX then all[SEEN_MAX / 2..] else all
  }

  datatype Attempt = Attempt(dk: Bytes, message: Encrypted, now: Time)

  function Try(d: Suite, maxAge: int, s: State, a: Attempt): (State, Option<Bytes>) {
    var p, key := Plaintext(d, a.dk, a.message), a.message.kem;
    if p.None? || !Fresh(maxAge, a.now, a.message.createdAt) || key in s.recent then (s, None)
    else (State(Remember(s.recent, key), s.accepted + [Acceptance(key, a.message.createdAt, a.now)]), p)
  }

  function Run(d: Suite, maxAge: int, attempts: seq<Attempt>): State
    decreases |attempts|
  {
    if attempts == [] then START
    else Try(d, maxAge, Run(d, maxAge, attempts[..|attempts| - 1]), attempts[|attempts| - 1]).0
  }

  // recent lists the KEM ciphertexts of the last acceptances.
  predicate IsSuffix(recent: seq<Bytes>, accepted: seq<Acceptance>) {
    |recent| <= |accepted| &&
    forall i :: 0 <= i < |recent| ==> recent[i] == accepted[|accepted| - |recent| + i].kem
  }

  // recent is a duplicate-free end of the accepted history, long enough after every eviction.
  predicate CacheInv(s: State) {
    && NoDuplicates(s.recent)
    && IsSuffix(s.recent, s.accepted)
    && |s.recent| <= SEEN_MAX
    && (|s.recent| == |s.accepted| || |s.recent| >= KEPT)
  }

  predicate Spaced(accepted: seq<Acceptance>) {
    forall i, j :: 0 <= i < j < |accepted| && accepted[i].kem == accepted[j].kem ==> j - i > KEPT
  }

  lemma {:induction false} RememberKeepsCache(s: State, a: Acceptance)
    requires CacheInv(s) && a.kem !in s.recent
    ensures CacheInv(State(Remember(s.recent, a.kem), s.accepted + [a]))
  {
    hide IsSuffix;
    var all, more := s.recent + [a.kem], s.accepted + [a];
    SuffixGrows(s.recent, s.accepted, a);
    SuffixLength(all, more);
    if |all| > SEEN_MAX {
      SuffixShrinks(all, more, SEEN_MAX / 2);
    }
  }

  lemma {:induction false} SuffixLength(recent: seq<Bytes>, accepted: seq<Acceptance>)
    requires IsSuffix(recent, accepted)
    ensures |recent| <= |accepted|
  {}

  lemma {:induction false} SuffixGrows(recent: seq<Bytes>, accepted: seq<Acceptance>, a: Acceptance)
    requires IsSuffix(recent, accepted)
    ensures IsSuffix(recent + [a.kem], accepted + [a])
  {}

  lemma {:induction false} SuffixShrinks(recent: seq<Bytes>, accepted: seq<Acceptance>, cut: nat)
    requires IsSuffix(recent, accepted) && cut <= |recent|
    ensures IsSuffix(recent[cut..], accepted)
  {}

  // A key that the cache has forgotten was accepted long ago.
  lemma {:induction false} ForgottenIsOld(s: State, key: Bytes, i: nat)
    requires CacheInv(s) && key !in s.recent && i < |s.accepted| && s.accepted[i].kem == key
    ensures |s.accepted| - i > KEPT
  {
    if i >= |s.accepted| - |s.recent| {
      RecentlyAccepted(s, i);
    }
  }

  lemma {:induction false} RecentlyAccepted(s: State, i: nat)
    requires CacheInv(s) && |s.accepted| - |s.recent| <= i < |s.accepted|
    ensures s.accepted[i].kem in s.recent
  {
    assert s.recent[i - (|s.accepted| - |s.recent|)] == s.accepted[i].kem;
  }

  lemma {:induction false} TryKeepsCache(d: Suite, maxAge: int, s: State, a: Attempt)
    requires CacheInv(s) && Spaced(s.accepted)
    ensures CacheInv(Try(d, maxAge, s, a).0) && Spaced(Try(d, maxAge, s, a).0.accepted)
  {
    hide CacheInv, Remember;
    var key := a.message.kem;
    if key !in s.recent {
      RememberKeepsCache(s, Acceptance(key, a.message.createdAt, a.now));
      forall i | 0 <= i < |s.accepted| && s.accepted[i].kem == key
        ensures |s.accepted| - i > KEPT
      {
        ForgottenIsOld(s, key, i);
      }
    }
  }

  lemma {:induction false} RunKeepsCache(d: Suite, maxAge: int, attempts: seq<Attempt>)
    ensures CacheInv(Run(d, maxAge, attempts)) && Spaced(Run(d, maxAge, attempts).accepted)
    decreases |attempts|
  {
    if attempts != [] {
      RunKeepsCache(d, maxAge, attempts[..|attempts| - 1]);
      TryKeepsCache(d, maxAge, Run(d, maxAge, attempts[..|attempts| - 1]), attempts[|attempts| - 1]);
    }
  }

  // The cache in numbers
  lemma {:induction false} CacheSize(d: Suite, maxAge: int, attempts: seq<Attempt>)
    ensures
      var s := Run(d, maxAge, attempts);
      |s.recent| <= 100_000 && (|s.recent| == |s.accepted| || |s.recent| >= 50_001)
  {
    RunKeepsCache(d, maxAge, attempts);
    hide IsSuffix, NoDuplicates, Run;
  }

  // Between two acceptances of one KEM ciphertext lie at least 50,001 other acceptances.
  lemma {:induction false} ReplayDistance(d: Suite, maxAge: int, attempts: seq<Attempt>, i: nat, j: nat)
    requires i < j < |Run(d, maxAge, attempts).accepted|
    requires Run(d, maxAge, attempts).accepted[i].kem == Run(d, maxAge, attempts).accepted[j].kem
    ensures j - i - 1 >= 50_001
  {
    RunKeepsCache(d, maxAge, attempts);
  }

  // ---------- The freshness window, across restarts ----------

  // The window in plain terms: at most a minute before its creation, and at most maxAge after it. The check is
  // off when maxAge is not positive. The largest maxAge has no upper end, because ages saturate there.
  predicate InWindow(maxAge: int, createdAt: int, now: Time) {
    maxAge > 0 ==>
      && 0 < createdAt
      && (createdAt - 60) * SECOND <= now
      && (now <= createdAt * SECOND + maxAge || maxAge == MAX_INT64)
  }

  lemma {:induction false} FreshExactly(maxAge: int, now: Time, createdAt: int)
    requires IsInt64(maxAge)
    ensures Fresh(maxAge, now, createdAt) <==> InWindow(maxAge, createdAt, now)
  {}

  // No decrypter, fresh or restarted, accepts a message outside its window.
  lemma {:induction false} AcceptedInWindow(d: Suite, maxAge: int, s: State, a: Attempt)
    requires IsInt64(maxAge) && Try(d, maxAge, s, a).1.Some?
    ensures InWindow(maxAge, a.message.createdAt, a.now)
  {
    FreshExactly(maxAge, a.now, a.message.createdAt);
    hide Fresh, InWindow;
  }

  // An authentic message is accepted exactly inside its window and outside the cache.
  lemma {:induction false} AcceptedExactly(d: Suite, maxAge: int, s: State, a: Attempt)
    requires IsInt64(maxAge) && Plaintext(d, a.dk, a.message).Some?
    ensures Try(d, maxAge, s, a).1.Some? <==>
              InWindow(maxAge, a.message.createdAt, a.now) && a.message.kem !in s.recent
  {
    FreshExactly(maxAge, a.now, a.message.createdAt);
    hide Fresh, InWindow, Plaintext;
  }

  // ---------- How far apart two acceptances can be ----------

  predicate Within(a: Time, b: Time, bound: int) {
    -bound <= a - b <= bound
  }

  // Whatever the two decrypters hold and whenever they accept, it is within maxAge plus a minute.
  ghost predicate AlwaysClose(d: Suite, maxAge: int, dk: Bytes, a: Encrypted, dl: Bytes, b: Encrypted) {
    forall s, x, t, y ::
      Try(d, maxAge, s, Attempt(dk, a, x)).1.Some? && Try(d, maxAge, t, Attempt(dl, b, y)).1.Some? ==>
      Within(x, y, maxAge + SKEW * SECOND)
  }

  // Two authentic messages of one KEM ciphertext are always accepted close together if and only if they were
  // created in the same second and maxAge is not the largest there is.
  lemma {:induction false} ReplayWindowExactly(
    d: Suite, maxAge: int, dk: Bytes, a: Encrypted, dl: Bytes, b: Encrypted)
    requires 0 < maxAge && IsInt64(maxAge) && a.createdAt > 0 && b.createdAt > 0 && a.kem == b.kem
    requires Plaintext(d, dk, a).Some? && Plaintext(d, dl, b).Some?
    ensures AlwaysClose(d, maxAge, dk, a, dl, b) <==> a.createdAt == b.createdAt && maxAge < MAX_INT64
  {
    hide Plaintext, Fresh;
    if a.createdAt == b.createdAt && maxAge < MAX_INT64 {
      forall s, x, t, y | Try(d, maxAge, s, Attempt(dk, a, x)).1.Some? && Try(d, maxAge, t, Attempt(dl, b, y)).1.Some?
        ensures Within(x, y, maxAge + SKEW * SECOND)
      {
        AcceptedInWindow(d, maxAge, s, Attempt(dk, a, x));
        AcceptedInWindow(d, maxAge, t, Attempt(dl, b, y));
      }
    } else {
      var early, late := if a.createdAt <= b.createdAt then a else b, if a.createdAt <= b.createdAt then b else a;
      var x := (early.createdAt - SKEW) * SECOND;
      var y := late.createdAt * SECOND + maxAge + if maxAge == MAX_INT64 then SECOND else 0;
      assert y - x > maxAge + SKEW * SECOND;
      var (p, q) := if a.createdAt <= b.createdAt then (x, y) else (y, x);
      AcceptedExactly(d, maxAge, START, Attempt(dk, a, p));
      AcceptedExactly(d, maxAge, START, Attempt(dl, b, q));
      assert !Within(p, q, maxAge + SKEW * SECOND);
    }
  }

  // What a sender makes who seals a message of its own under a secret it encapsulated before
  function SealAgain(d: Suite, e: (Bytes, Bytes), plain: Bytes, nonce: Bytes, createdAt: int): Encrypted {
    Encrypted(e.1, nonce, d.seal(e.0, nonce, plain, EncodeTimestamp(createdAt)), createdAt)
  }

  // The input on which the window fails: two messages sealed under one encapsulation, at any two times. Each is
  // accepted at its time by any decrypter that does not remember the ciphertext, a restarted one for instance.
  lemma {:induction false} SealedTwiceAcceptedTwice(
    d: Suite, maxAge: int, dk: Bytes, random: Bytes, plain: Bytes, other: Bytes, nonce: Bytes, first: int, second: int,
    s: State, t: State)
    requires Correct(d) && 0 < maxAge && IsInt64(maxAge) && |nonce| == NONCE_SIZE && !ZeroNonce(nonce)
    requires d.encapsulate(d.publicOf(dk), random).Some? && first > 0 && second > 0
    requires var kem := d.encapsulate(d.publicOf(dk), random).value.1; kem !in s.recent && kem !in t.recent
    ensures
      var e := d.encapsulate(d.publicOf(dk), random).value;
      var a, b := SealAgain(d, e, plain, nonce, first), SealAgain(d, e, other, nonce, second);
      && a.kem == b.kem
      && Try(d, maxAge, s, Attempt(dk, a, first * SECOND)).1 == Some(plain)
      && Try(d, maxAge, t, Attempt(dk, b, second * SECOND)).1 == Some(other)
      && ((second - first - SKEW) * SECOND > maxAge ==>
            !Within(first * SECOND, second * SECOND, maxAge + SKEW * SECOND))
  {
    var e := d.encapsulate(d.publicOf(dk), random).value;
    SealedOpens(d, dk, e, plain, nonce, first);
    SealedOpens(d, dk, e, other, nonce, second);
    FreshExactly(maxAge, first * SECOND, first);
    FreshExactly(maxAge, second * SECOND, second);
    hide Plaintext, Fresh, Correct;
  }

  lemma {:induction false} SealedOpens(
    d: Suite, dk: Bytes, e: (Bytes, Bytes), plain: Bytes, nonce: Bytes, createdAt: int)
    requires Correct(d) && |nonce| == NONCE_SIZE && !ZeroNonce(nonce)
    requires exists random :: d.encapsulate(d.publicOf(dk), random) == Some(e)
    ensures Plaintext(d, dk, SealAgain(d, e, plain, nonce, createdAt)) == Some(plain)
  {
    var random :| d.encapsulate(d.publicOf(dk), random) == Some(e);
    var ad := EncodeTimestamp(createdAt);
    assert d.open(e.0, nonce, d.seal(e.0, nonce, plain, ad), ad) == Some(plain);
    hide EncodeTimestamp;
  }

  // Every message in the log has an encapsulation of its own. Encrypt makes its messages so, as long as
  // encapsulations do not repeat, but nothing in a decrypter enforces it on other senders.
  predicate SealedOnce(log: set<Encrypted>) {
    forall e, f :: e in log && f in log && e.kem == f.kem ==> e == f
  }

  // What opens was encrypted by somebody: its KEM ciphertext and its timestamp are those of a message in the log.
  predicate NotForged(d: Suite, log: set<Encrypted>, a: Attempt) {
    Plaintext(d, a.dk, a.message).Some? ==>
      exists e :: e in log && e.kem == a.message.kem
               && EncodeTimestamp(e.createdAt) == EncodeTimestamp(a.message.createdAt)
  }

  // If all senders seal once under each encapsulation, two acceptances of one KEM ciphertext, by any two
  // decrypters in any two states, lie within maxAge plus a minute of each other.
  lemma {:induction false} ReplayWindow(
    d: Suite, maxAge: int, log: set<Encrypted>, s: State, a: Attempt, t: State, b: Attempt)
    requires SealedOnce(log) && NotForged(d, log, a) && NotForged(d, log, b) && 0 < maxAge < MAX_INT64
    requires IsInt64(a.message.createdAt) && IsInt64(b.message.createdAt)
    requires Try(d, maxAge, s, a).1.Some? && Try(d, maxAge, t, b).1.Some? && a.message.kem == b.message.kem
    ensures Within(a.now, b.now, maxAge + SKEW * SECOND)
  {
    AcceptedInWindow(d, maxAge, s, a);
    AcceptedInWindow(d, maxAge, t, b);
    hide Fresh;
    EncodeTimestampInjective(a.message.createdAt, b.message.createdAt);
  }

  // A message of Encrypt decrypts to what was encrypted exactly inside its window and outside the cache.
  lemma {:induction false} EncryptThenDecrypt(
    d: Suite, maxAge: int, s: State, dk: Bytes, plain: Bytes, random: Bytes, nonce: Bytes, made: Time, now: Time)
    requires Correct(d) && |nonce| == NONCE_SIZE && IsInt64(maxAge)
    requires Encrypt(d, d.publicOf(dk), plain, random, nonce, made).Some?
    ensures
      var e := Encrypt(d, d.publicOf(dk), plain, random, nonce, made).value;
      Try(d, maxAge, s, Attempt(dk, e, now)).1
        == if InWindow(maxAge, e.createdAt, now) && e.kem !in s.recent then Some(plain) else None
  {
    var e := Encrypt(d, d.publicOf(dk), plain, random, nonce, made).value;
    SealedOpens(d, dk, d.encapsulate(d.publicOf(dk), random).value, plain, nonce, made / SECOND);
    FreshExactly(maxAge, now, e.createdAt);
    hide Plaintext, Fresh, Correct;
  }

  // So a message decrypts from the moment it was made until a second before maxAge is over, unless the cache holds
  // its ciphertext.
  lemma {:induction false} DecryptsInTime(
    d: Suite, maxAge: int, s: State, dk: Bytes, plain: Bytes, random: Bytes, nonce: Bytes, made: Time, now: Time)
    requires Correct(d) && |nonce| == NONCE_SIZE && IsInt64(maxAge)
    requires Encrypt(d, d.publicOf(dk), plain, random, nonce, made).Some?
    requires made >= SECOND && made <= now <= made + maxAge - SECOND
    requires d.encapsulate(d.publicOf(dk), random).value.1 !in s.recent
    ensures Try(d, maxAge, s, Attempt(dk, Encrypt(d, d.publicOf(dk), plain, random, nonce, made).value, now)).1
         == Some(plain)
  {
    EncryptStamps(d, d.publicOf(dk), plain, random, nonce, made);
    EncryptThenDecrypt(d, maxAge, s, dk, plain, random, nonce, made, now);
    hide Encrypt, Try, Correct;
  }

  // A refused attempt leaves everything as it was; an accepted one is remembered and recorded.
  lemma {:induction false} TryRecords(d: Suite, maxAge: int, s: State, a: Attempt)
    ensures
      var (t, r) := Try(d, maxAge, s, a);
      && (r.None? ==> t == s)
      && (r.Some? ==>
            && r == Plaintext(d, a.dk, a.message) && a.message.kem in t.recent
            && t.accepted == s.accepted + [Acceptance(a.message.kem, a.message.createdAt, a.now)])
  {
    hide Plaintext, Fresh;
    var all := s.recent + [a.message.kem];
    assert all[|s.recent|] == a.message.kem;
    if |all| > SEEN_MAX {
      assert all[SEEN_MAX / 2..][|s.recent| - SEEN_MAX / 2] == a.message.kem;
    }
  }

  // ---------- The object ----------

  class Decrypter {
    const d: Suite
    const maxAge: int
    var seen: set<Bytes>
    var seenSeq: seq<Bytes>
    ghost var accepted: seq<Acceptance>

    ghost function Model(): State
      reads this
    {
      State(seenSeq, accepted)
    }

    ghost predicate Valid()
      reads this
    {
      CacheInv(Model()) && seen == Members(seenSeq)
    }

    constructor (d: Suite, maxAge: int)
      ensures Valid() && Model() == START && this.d == d && this.maxAge == maxAge
    {
      this.d, this.maxAge := d, maxAge;
      seen, seenSeq, accepted := {}, [], [];
    }

    method Decrypt(dk: Bytes, e: Encrypted, now: Time) returns (r: Option<Bytes>)
      requires Valid()
      modifies this
      ensures Valid()
      ensures (Model(), r) == Try(d, maxAge, old(Model()), Attempt(dk, e, now))
    {
      var plaintext := Plaintext(d, dk, e);
      if plaintext.None? {
        return None;
      }
      if maxAge > 0 {
        var age := Saturate(now - e.createdAt * SECOND);
        if e.createdAt <= 0 || age > maxAge {
          return None;
        }
        if e.createdAt > now / SECOND + SKEW {
          return None;
        }
      }
      var isSeen := e.kem in seen;
      if isSeen {
        return None;
      }
      Recall(e.kem, now, e.createdAt);
      return plaintext;
    }

    // The critical section for a ciphertext that the cache does not hold
    method Recall(key: Bytes, now: Time, createdAt: int)
      requires Valid() && key !in seenSeq && NoDuplicates(seenSeq)
      modifies this
      ensures Valid()
      ensures seenSeq == Remember(old(seenSeq), key)
      ensures accepted == old(accepted) + [Acceptance(key, createdAt, now)]
    {
      RememberKeepsCache(Model(), Acceptance(key, createdAt, now));
      hide CacheInv;
      AppendMember(seenSeq, key);
      seen := seen + {key};
      seenSeq := seenSeq + [key];
      accepted := accepted + [Acceptance(key, createdAt, now)];
      DistinctCount(seenSeq);
      if |seen| > SEEN_MAX {
        EvictOldestHalf();
        seenSeq := seenSeq[SEEN_MAX / 2..];
      }
    }

    method EvictOldestHalf()
      requires |seenSeq| > SEEN_MAX && NoDuplicates(seenSeq) && seen == Members(seenSeq)
      modifies this`seen
      ensures seen == Members(seenSeq[SEEN_MAX / 2..])
    {
      hide NoDuplicates, Members;
      var evict := seenSeq[..SEEN_MAX / 2];
      assert seenSeq[0..] == seenSeq;
      for i := 0 to |evict|
        invariant seen == Members(seenSeq[i..])
      {
        DropFirst(seenSeq, i);
        seen := seen - {evict[i]};
      }
    }
  }

  lemma {:induction false} AppendMember(s: seq<Bytes>, key: Bytes)
    requires NoDuplicates(s) && key !in s
    ensures NoDuplicates(s + [key]) && Members(s + [key]) == Members(s) + {key}
  {}
}
