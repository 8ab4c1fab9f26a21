// M-of-N approval: the coordinator that collects partial signatures and the verifier of the bundle.
module Threshold {
  import opened Common

  // SHA-256 and ML-DSA-65; a public key verifies only if its bytes parse.
  datatype Suite = Suite(sha: Bytes -> Bytes, validPk: Bytes -> bool, verify: (Bytes, Bytes, Bytes) -> bool)

  const DIGEST_SIZE := 32
  const NONCE_SIZE := 32

  datatype Partial = Partial(signerID: string, publicKey: Bytes, signature: Bytes, nonce: Bytes)

  datatype Bundle = Bundle(threshold: int, msgDigest: Bytes, nonce: Bytes, partials: seq<Partial>)

  // "qs-threshold-v1:"
  const LABEL: Bytes := [0x71, 0x73, 0x2d, 0x74, 0x68, 0x72, 0x65, 0x73, 0x68, 0x6f, 0x6c, 0x64, 0x2d, 0x76, 0x31, 0x3a]

  function HashedForBinding(d: Suite, nonce: Bytes, msg: Bytes): Bytes {
    LABEL + nonce + d.sha(msg)
  }

  function BindingHash(d: Suite, nonce: Bytes, msg: Bytes): Bytes {
    d.sha(HashedForBinding(d, nonce, msg))
  }

  // The label is ASCII, and the hashed bytes are label, nonce and message digest, in this order.
  lemma {:induction false} BindingLayout(d: Suite, nonce: Bytes, msg: Bytes)
    ensures
      var hashed := HashedForBinding(d, nonce, msg);
      && BindingHash(d, nonce, msg) == d.sha(hashed)
      && |hashed| == 16 + |nonce| + |d.sha(msg)|
      && (forall i :: 0 <= i < 16 ==> hashed[i] == "qs-threshold-v1:"[i] as int)
      && hashed[16..16 + |nonce|] == nonce && hashed[16 + |nonce|..] == d.sha(msg)
  {}

  // ---------- The coordinator ----------

  datatype Round = Round(msg: Bytes, nonce: Bytes, threshold: nat, partials: seq<Partial>, authorised: Option<Bundle>)

  datatype NewError = EmptyMessage | BadNonce | BadThreshold

  datatype SubmitError = NonceMismatch | DuplicateSigner | BadKey | BadSignature

  predicate SignedBy(d: Suite, partials: seq<Partial>, id: string) {
    exists i :: 0 <= i < |partials| && partials[i].signerID == id
  }

  function NewRound(msg: Bytes, nonce: Bytes, threshold: int): Result<Round, NewError> {
    if msg == [] then Err(EmptyMessage)
    else if |nonce| != NONCE_SIZE then Err(BadNonce)
    else if threshold < 1 then Err(BadThreshold)
    else Ok(Round(msg, nonce, threshold, [], None))
  }

  // The new round and what Submit returns: the error, or the bundle once there is one
  function Submit(d: Suite, r: Round, p: Partial): (Round, Result<Option<Bundle>, SubmitError>) {
    if r.authorised.Some? then (r, Ok(r.authorised))
    else if p.nonce != r.nonce then (r, Err(NonceMismatch))
    else if SignedBy(d, r.partials, p.signerID) then (r, Err(DuplicateSigner))
    else if !d.validPk(p.publicKey) then (r, Err(BadKey))
    else if !d.verify(p.publicKey, BindingHash(d, r.nonce, r.msg), p.signature) then (r, Err(BadSignature))
    else
      var all := r.partials + [p];
      if |all| >= r.threshold then
        var b := Bundle(r.threshold, d.sha(r.msg), r.nonce, all[..r.threshold]);
        (r.(partials := all, authorised := Some(b)), Ok(Some(b)))
      else (r.(partials := all), Ok(None))
  }

  function SubmitAll(d: Suite, r: Round, ps: seq<Partial>): Round
    decreases |ps|
  {
    if ps == [] then r else Submit(d, SubmitAll(d, r, ps[..|ps| - 1]), ps[|ps| - 1]).0
  }

  // ---------- The verifier ----------

  datatype VerifyError =
    | NilBundle | TooFewPartials | DigestMismatch | UnknownSigner | KeyMismatch | RepeatedSigner
    | WrongNonce | UnparsableKey | InvalidSignature

  function PartialFault(
    d: Suite, msg: Bytes, b: Bundle, trusted: map<string, Bytes>, seen: seq<string>, p: Partial): Option<VerifyError>
  {
    if p.signerID !in trusted then Some(UnknownSigner)
    else if trusted[p.signerID] != p.publicKey then Some(KeyMismatch)
    else if p.signerID in seen then Some(RepeatedSigner)
    else if p.nonce != b.nonce then Some(WrongNonce)
    else if !d.validPk(p.publicKey) then Some(UnparsableKey)
    else if !d.verify(p.publicKey, BindingHash(d, b.nonce, msg), p.signature) then Some(InvalidSignature)
    else None
  }

  function SignerIDs(ps: seq<Partial>): (ids: seq<string>)
    ensures |ids| == |ps|
  {
    seq(|ps|, i requires 0 <= i < |ps| => ps[i].signerID)
  }

  // The first fault at or after partial i
  function FaultFrom(d: Suite, msg: Bytes, b: Bundle, trusted: map<string, Bytes>, i: nat): Option<VerifyError>
    requires i <= |b.partials|
    decreases |b.partials| - i
  {
    if i == |b.partials| then None
    else
      var fault := PartialFault(d, msg, b, trusted, SignerIDs(b.partials[..i]), b.partials[i]);
      if fault.Some? then fault else FaultFrom(d, msg, b, trusted, i + 1)
  }

  function Verdict(d: Suite, msg: Bytes, auth: Option<Bundle>, trusted: map<string, Bytes>): Option<VerifyError> {
    if auth.None? then Some(NilBundle)
    else if |auth.value.partials| < auth.value.threshold then Some(TooFewPartials)
    else if d.sha(msg) != auth.value.msgDigest then Some(DigestMismatch)
    else FaultFrom(d, msg, auth.value, trusted, 0)
  }

  // A partial that belongs in a bundle for this message under this registry
  predicate Counts(d: Suite, msg: Bytes, nonce: Bytes, trusted: map<string, Bytes>, p: Partial) {
    && p.signerID in trusted && trusted[p.signerID] == p.publicKey
    && p.nonce == nonce
    && d.validPk(p.publicKey) && d.verify(p.publicKey, BindingHash(d, nonce, msg), p.signature)
  }

  predicate DistinctSigners(ps: seq<Partial>) {
    forall i, j :: 0 <= i < j < |ps| ==> ps[i].signerID != ps[j].signerID
  }

  predicate Approves(d: Suite, msg: Bytes, b: Bundle, trusted: map<string, Bytes>) {
    && |b.partials| >= b.threshold
    && b.msgDigest == d.sha(msg)
    && DistinctSigners(b.partials)
    && (forall i :: 0 <= i < |b.partials| ==> Counts(d, msg, b.nonce, trusted, b.partials[i]))
  }

  lemma {:induction false} FaultsFrom(d: Suite, msg: Bytes, b: Bundle, trusted: map<string, Bytes>, i: nat)
    requires i <= |b.partials| && DistinctSigners(b.partials[..i])
    requires forall j :: 0 <= j < i ==> Counts(d, msg, b.nonce, trusted, b.partials[j])
    ensures FaultFrom(d, msg, b, trusted, i).None? <==>
              DistinctSigners(b.partials)
              && forall j :: 0 <= j < |b.partials| ==> Counts(d, msg, b.nonce, trusted, b.partials[j])
    decreases |b.partials| - i
  {
    hide BindingHash;
    if i == |b.partials| {
      assert b.partials[..i] == b.partials;
    } else {
      var p, ids := b.partials[i], SignerIDs(b.partials[..i]);
      assert forall j :: 0 <= j < i ==> ids[j] == b.partials[j].signerID;
      if PartialFault(d, msg, b, trusted, ids, p).None? {
        assert b.partials[..i + 1] == b.partials[..i] + [p];
        FaultsFrom(d, msg, b, trusted, i + 1);
      }
    }
  }

  // No fault at all is the same as a bundle that approves.
  lemma {:induction false} VerdictExactly(d: Suite, msg: Bytes, auth: Option<Bundle>, trusted: map<string, Bytes>)
    ensures Verdict(d, msg, auth, trusted).None? <==> auth.Some? && Approves(d, msg, auth.value, trusted)
  {
    hide FaultFrom, Counts, DistinctSigners;
    if auth.Some? {
      NoSigners(auth.value.partials);
      FaultsFrom(d, msg, auth.value, trusted, 0);
    }
  }

  // What a refusal says: the first thing that is wrong with the bundle, or with the first partial that is wrong
  lemma {:induction false} VerdictExplained(d: Suite, msg: Bytes, auth: Option<Bundle>, trusted: map<string, Bytes>)
    ensures
      var v := Verdict(d, msg, auth, trusted);
      && (v == Some(NilBundle) <==> auth.None?)
      && (auth.Some? ==>
            var b := auth.value;
            && (v == Some(TooFewPartials) <==> |b.partials| < b.threshold)
            && (v == Some(DigestMismatch) <==> |b.partials| >= b.threshold && d.sha(msg) != b.msgDigest)
            && (v.Some? && !v.value.TooFewPartials? && !v.value.DigestMismatch? ==>
                  exists i :: 0 <= i < |b.partials| && PartialWrong(d, msg, b, trusted, i, v.value)))
  {
    hide Counts, BindingHash;
    if auth.Some? && FaultFrom(d, msg, auth.value, trusted, 0).Some? {
      var i := FirstWrong(d, msg, auth.value, trusted, 0);
    }
  }

  // Partial i has this fault and none that is looked for earlier, and no partial before it has any.
  predicate PartialWrong(d: Suite, msg: Bytes, b: Bundle, trusted: map<string, Bytes>, i: nat, e: VerifyError)
    requires i < |b.partials|
  {
    var p := b.partials[i];
    var known := p.signerID in trusted;
    var repeated := exists j :: 0 <= j < i && b.partials[j].signerID == p.signerID;
    && (forall j :: 0 <= j < i ==> Counts(d, msg, b.nonce, trusted, b.partials[j]))
    && match e
       case UnknownSigner => !known
       case KeyMismatch => known && trusted[p.signerID] != p.publicKey
       case RepeatedSigner => known && trusted[p.signerID] == p.publicKey && repeated
       case WrongNonce => !repeated && p.nonce != b.nonce
       case UnparsableKey => p.nonce == b.nonce && !d.validPk(p.publicKey)
       case InvalidSignature =>
         d.validPk(p.publicKey) && !d.verify(p.publicKey, BindingHash(d, b.nonce, msg), p.signature)
       case _ => false
  }

  lemma {:induction false} FirstWrong(d: Suite, msg: Bytes, b: Bundle, trusted: map<string, Bytes>, i: nat)
    returns (at: nat)
    requires i <= |b.partials| && FaultFrom(d, msg, b, trusted, i).Some?
    requires forall j :: 0 <= j < i ==> Counts(d, msg, b.nonce, trusted, b.partials[j])
    ensures at < |b.partials| && PartialWrong(d, msg, b, trusted, at, FaultFrom(d, msg, b, trusted, i).value)
    decreases |b.partials| - i
  {
    hide BindingHash;
    var p, ids := b.partials[i], SignerIDs(b.partials[..i]);
    assert forall j :: 0 <= j < i ==> ids[j] == b.partials[j].signerID;
    if PartialFault(d, msg, b, trusted, ids, p).None? {
      at := FirstWrong(d, msg, b, trusted, i + 1);
    } else {
      at := i;
    }
  }

  lemma {:induction false} NoSigners(ps: seq<Partial>)
    ensures DistinctSigners(ps[..0])
  {}

  method Verify(
    d: Suite, msg: Bytes, auth: Option<Bundle>, trusted: map<string, Bytes>)
    returns (r: Option<VerifyError>)
    ensures r == Verdict(d, msg, auth, trusted)
    ensures r.None? <==> auth.Some? && Approves(d, msg, auth.value, trusted)
  {
    VerdictExactly(d, msg, auth, trusted);
    hide BindingHash, Counts, DistinctSigners;
    if auth.None? {
      return Some(NilBundle);
    }
    var b := auth.value;
    if |b.partials| < b.threshold {
      return Some(TooFewPartials);
    }
    if d.sha(msg) != b.msgDigest {
      return Some(DigestMismatch);
    }
    var seen: set<string> := {};
    for i := 0 to |b.partials|
      invariant forall id :: id in seen <==> id in SignerIDs(b.partials[..i])
      invariant FaultFrom(d, msg, b, trusted, 0) == FaultFrom(d, msg, b, trusted, i)
    {
      var p := b.partials[i];
      assert SignerIDs(b.partials[..i + 1]) == SignerIDs(b.partials[..i]) + [p.signerID];
      if p.signerID !in trusted {
        return Some(UnknownSigner);
      }
      if trusted[p.signerID] != p.publicKey {
        return Some(KeyMismatch);
      }
      if p.signerID in seen {
        return Some(RepeatedSigner);
      }
      seen := seen + {p.signerID};
      if p.nonce != b.nonce {
        return Some(WrongNonce);
      }
      if !d.validPk(p.publicKey) {
        return Some(UnparsableKey);
      }
      if !d.verify(p.publicKey, BindingHash(d, b.nonce, msg), p.signature) {
        return Some(InvalidSignature);
      }
    }
    return None;
  }

  // ---------- Rounds ----------

  predicate Valid(d: Suite, r: Round, p: Partial) {
    p.nonce == r.nonce && d.validPk(p.publicKey) && d.verify(p.publicKey, BindingHash(d, r.nonce, r.msg), p.signature)
  }

  // Accepted partials are valid and come from different signers; the round is complete exactly when
  // there are threshold of them, and its bundle is made of them.
  predicate RoundInv(d: Suite, r: Round) {
    && r.threshold >= 1
    && DistinctSigners(r.partials)
    && (forall i :: 0 <= i < |r.partials| ==> Valid(d, r, r.partials[i]))
    && |r.partials| <= r.threshold
    && (r.authorised.Some? <==> |r.partials| == r.threshold)
    && (r.authorised.Some? ==> r.authorised.value == Bundle(r.threshold, d.sha(r.msg), r.nonce, r.partials))
  }

  lemma {:induction false} SubmitKeepsInv(d: Suite, r: Round, p: Partial)
    requires RoundInv(d, r)
    ensures RoundInv(d, Submit(d, r, p).0)
    ensures Submit(d, r, p).0.(partials := r.partials, authorised := r.authorised) == r
  {
    hide BindingHash;
    var all := r.partials + [p];
    assert all[..|all|] == all;
  }

  lemma {:induction false} SubmitAllKeepsInv(d: Suite, r: Round, ps: seq<Partial>)
    requires RoundInv(d, r)
    ensures RoundInv(d, SubmitAll(d, r, ps))
    ensures SubmitAll(d, r, ps).(partials := r.partials, authorised := r.authorised) == r
    decreases |ps|
  {
    hide RoundInv, Submit;
    if ps != [] {
      SubmitAllKeepsInv(d, r, ps[..|ps| - 1]);
      SubmitKeepsInv(d, SubmitAll(d, r, ps[..|ps| - 1]), ps[|ps| - 1]);
    }
  }

  // What a submission returns: the bundle once there is one, and otherwise nothing or the error.
  lemma {:induction false} SubmitReturns(d: Suite, r: Round, p: Partial)
    ensures
      var (after, x) := Submit(d, r, p);
      && (x.Ok? ==> x.value == after.authorised)
      && (x.Err? ==> after == r && r.authorised.None?)
      && (r.authorised.Some? ==> x == Ok(r.authorised) && after == r)
  {
    hide BindingHash;
  }

  // An open round accepts exactly the valid partials of signers it has not seen, appends them, and returns the bundle
  // with the one that reaches the threshold. The errors name the first fault.
  lemma {:induction false} SubmitExactly(d: Suite, r: Round, p: Partial)
    requires RoundInv(d, r) && r.authorised.None?
    ensures
      var (after, x) := Submit(d, r, p);
      && (x.Ok? <==> Valid(d, r, p) && forall i :: 0 <= i < |r.partials| ==> r.partials[i].signerID != p.signerID)
      && (x.Ok? ==> after.partials == r.partials + [p])
      && (x.Ok? ==> (x.value.Some? <==> |r.partials| + 1 == r.threshold))
      && (x.Ok? && x.value.Some? ==> x.value.value == Bundle(r.threshold, d.sha(r.msg), r.nonce, r.partials + [p]))
      && (x == Err(NonceMismatch) <==> p.nonce != r.nonce)
      && (x == Err(DuplicateSigner) <==>
            p.nonce == r.nonce && exists i :: 0 <= i < |r.partials| && r.partials[i].signerID == p.signerID)
      && (x == Err(BadKey) ==> p.nonce == r.nonce && !d.validPk(p.publicKey))
      && (x == Err(BadSignature) ==>
            d.validPk(p.publicKey) && !d.verify(p.publicKey, BindingHash(d, r.nonce, r.msg), p.signature))
  {
    hide BindingHash;
    var all := r.partials + [p];
    assert all[..|all|] == all;
  }

  // A completed round never changes.
  lemma {:induction false} CompletedIsFinal(d: Suite, r: Round, ps: seq<Partial>)
    requires r.authorised.Some?
    ensures SubmitAll(d, r, ps) == r
    decreases |ps|
  {
    if ps != [] {
      CompletedIsFinal(d, r, ps[..|ps| - 1]);
    }
  }

  // The registry lists these signers with the keys they signed under.
  predicate Lists(trusted: map<string, Bytes>, ps: seq<Partial>) {
    forall i :: 0 <= i < |ps| ==> ps[i].signerID in trusted && trusted[ps[i].signerID] == ps[i].publicKey
  }

  // Any sequence of submissions: the round completes exactly when threshold of them have been accepted,
  // and its bundle then passes the verifier for every registry that lists its signers.
  lemma {:induction false} CoordinatorMeetsVerifier(
    d: Suite, msg: Bytes, nonce: Bytes, threshold: int, ps: seq<Partial>, trusted: map<string, Bytes>)
    requires NewRound(msg, nonce, threshold).Ok?
    ensures var r := SubmitAll(d, NewRound(msg, nonce, threshold).value, ps);
            && RoundInv(d, r) && r.msg == msg && r.nonce == nonce && r.threshold == threshold
            && (r.authorised.Some? ==> (Approves(d, msg, r.authorised.value, trusted) <==> Lists(trusted, r.partials)))
  {
    hide BindingHash;
    var r0 := NewRound(msg, nonce, threshold).value;
    SubmitAllKeepsInv(d, r0, ps);
    var r := SubmitAll(d, r0, ps);
    assert r.msg == r0.msg && r.nonce == r0.nonce && r.threshold == r0.threshold;
    if r.authorised.Some? {
      assert forall i :: 0 <= i < |r.partials| ==> Valid(d, r, r.partials[i]);
    }
  }

  // Honest submissions complete: different signers, valid signatures, enough of them.
  lemma {:induction false} HonestRoundCompletes(d: Suite, r: Round, ps: seq<Partial>)
    requires RoundInv(d, r) && r.partials == [] && DistinctSigners(ps)
    requires forall i :: 0 <= i < |ps| ==> Valid(d, r, ps[i])
    ensures SubmitAll(d, r, ps).partials == ps[..if |ps| <= r.threshold then |ps| else r.threshold]
    decreases |ps|
  {
    hide BindingHash;
    if ps != [] {
      var init, last := ps[..|ps| - 1], ps[|ps| - 1];
      HonestRoundCompletes(d, r, init);
      SubmitAllKeepsInv(d, r, init);
      var s := SubmitAll(d, r, init);
      if |init| < r.threshold {
        assert s.partials == init && Valid(d, r, last);
        assert !SignedBy(d, init, last.signerID);
        assert init + [last] == ps;
      } else {
        assert ps[..r.threshold] == init[..r.threshold];
      }
    } else {
      assert ps[..0] == [];
    }
  }

  // ---------- What acceptance proves ----------

  ghost predicate CollisionFreeOn(d: Suite, inputs: set<Bytes>) {
    forall a, b :: a in inputs && b in inputs && d.sha(a) == d.sha(b) ==> a == b
  }

  // What each key has signed in its life: pairs of nonce and message, through their binding hash
  type Ledger = map<Bytes, set<(Bytes, Bytes)>>

  // A partial's signature is no forgery: what it verifies for under a key, that key has signed.
  ghost predicate NotForged(d: Suite, ledger: Ledger, p: Partial) {
    forall m :: d.verify(p.publicKey, m, p.signature) ==>
      p.publicKey in ledger && exists pair :: pair in ledger[p.publicKey] && m == BindingHash(d, pair.0, pair.1)
  }

  // The inputs whose hashes must not collide
  ghost predicate Covers(d: Suite, inputs: set<Bytes>, ledger: Ledger, nonce: Bytes, msg: Bytes) {
    && msg in inputs && HashedForBinding(d, nonce, msg) in inputs
    && (forall pk, pair :: pk in ledger && pair in ledger[pk] ==>
          pair.1 in inputs && HashedForBinding(d, pair.0, pair.1) in inputs)
  }

  lemma {:induction false} BindingInjective(
    d: Suite, inputs: set<Bytes>, nonce: Bytes, msg: Bytes, other: Bytes, text: Bytes)
    requires CollisionFreeOn(d, inputs) && (forall m :: |d.sha(m)| == DIGEST_SIZE)
    requires msg in inputs && text in inputs
    requires HashedForBinding(d, nonce, msg) in inputs && HashedForBinding(d, other, text) in inputs
    requires BindingHash(d, nonce, msg) == BindingHash(d, other, text)
    ensures nonce == other && msg == text
  {
    var a, b := HashedForBinding(d, nonce, msg), HashedForBinding(d, other, text);
    assert a == b;
    assert |a| == |LABEL| + |nonce| + DIGEST_SIZE && |b| == |LABEL| + |other| + DIGEST_SIZE;
    assert nonce == a[|LABEL|..|LABEL| + |nonce|] && other == b[|LABEL|..|LABEL| + |other|];
    assert d.sha(msg) == a[|LABEL| + |nonce|..] && d.sha(text) == b[|LABEL| + |other|..];
  }

  // An approved bundle has at least threshold partials, all from different registered signers, and
  // every one of those signers has signed this message under this nonce.
  lemma {:induction false} ApprovalMeansSigned(
    d: Suite, msg: Bytes, b: Bundle, trusted: map<string, Bytes>, ledger: Ledger, inputs: set<Bytes>)
    requires CollisionFreeOn(d, inputs) && (forall m :: |d.sha(m)| == DIGEST_SIZE)
    requires (forall i :: 0 <= i < |b.partials| ==> NotForged(d, ledger, b.partials[i]))
    requires Covers(d, inputs, ledger, b.nonce, msg)
    requires Approves(d, msg, b, trusted)
    ensures var signers := Members(SignerIDs(b.partials));
            && |signers| == |b.partials| >= b.threshold
            && (forall id :: id in signers ==>
                  id in trusted && trusted[id] in ledger && (b.nonce, msg) in ledger[trusted[id]])
  {
    forall i | 0 <= i < |b.partials|
      ensures var id := b.partials[i].signerID;
              id in trusted && trusted[id] in ledger && (b.nonce, msg) in ledger[trusted[id]]
    {
      SignerSigned(d, msg, b.nonce, trusted, ledger, inputs, b.partials[i]);
    }
    DistinctCount(SignerIDs(b.partials));
  }

  // A verifier that wants m signers gets them exactly from the accepted bundles with m partials; the threshold that
  // the bundle carries is no such guarantee, unless it is at least m.
  lemma {:induction false} ApprovalProvesExactly(
    d: Suite, msg: Bytes, b: Bundle, trusted: map<string, Bytes>, ledger: Ledger, inputs: set<Bytes>, m: int)
    requires CollisionFreeOn(d, inputs) && (forall x :: |d.sha(x)| == DIGEST_SIZE)
    requires (forall i :: 0 <= i < |b.partials| ==> NotForged(d, ledger, b.partials[i]))
    requires Covers(d, inputs, ledger, b.nonce, msg)
    requires Verdict(d, msg, Some(b), trusted).None?
    ensures var signers := Members(SignerIDs(b.partials));
            && (forall id :: id in signers ==>
                  id in trusted && trusted[id] in ledger && (b.nonce, msg) in ledger[trusted[id]])
            && (|signers| >= m <==> |b.partials| >= m)
            && (b.threshold >= m ==> |signers| >= m)
  {
    VerdictExactly(d, msg, Some(b), trusted);
    ApprovalMeansSigned(d, msg, b, trusted, ledger, inputs);
  }

  // The input on which acceptance proves no signer at all: a bundle with threshold zero and no partials passes for
  // every message and every registry.
  lemma {:induction false} EmptyBundleAccepted(d: Suite, msg: Bytes, nonce: Bytes, trusted: map<string, Bytes>)
    ensures Verdict(d, msg, Some(Bundle(0, d.sha(msg), nonce, [])), trusted).None?
    ensures Members(SignerIDs(Bundle(0, d.sha(msg), nonce, []).partials)) == {}
  {}

  lemma {:induction false} SignerSigned(
    d: Suite, msg: Bytes, nonce: Bytes, trusted: map<string, Bytes>, ledger: Ledger, inputs: set<Bytes>, p: Partial)
    requires CollisionFreeOn(d, inputs) && (forall m :: |d.sha(m)| == DIGEST_SIZE)
    requires NotForged(d, ledger, p) && Covers(d, inputs, ledger, nonce, msg)
    requires Counts(d, msg, nonce, trusted, p)
    ensures trusted[p.signerID] in ledger && (nonce, msg) in ledger[trusted[p.signerID]]
  {
    hide BindingHash, CollisionFreeOn;
    var pk := trusted[p.signerID];
    assert d.verify(pk, BindingHash(d, nonce, msg), p.signature);
    var pair :| pair in ledger[pk] && BindingHash(d, nonce, msg) == BindingHash(d, pair.0, pair.1);
    BindingInjective(d, inputs, nonce, msg, pair.0, pair.1);
  }

  // ---------- The object ----------

  class Coordinator {
    const d: Suite
    const msg: Bytes
    const nonce: Bytes
    const threshold: nat
    var partials: seq<Partial>
    var done: bool
    var authorised: Option<Bundle>

    ghost predicate Consistent()
      reads this
    {
      done <==> authorised.Some?
    }

    ghost function Model(): Round
      reads this
    {
      Round(msg, nonce, threshold, partials, authorised)
    }

    constructor (d: Suite, r: Round)
      requires r.partials == [] && r.authorised == None
      ensures Consistent() && Model() == r && this.d == d
    {
      this.d := d;
      msg, nonce, threshold := r.msg, r.nonce, r.threshold;
      partials, done, authorised := [], false, None;
    }

    static method Create(d: Suite, msg: Bytes, nonce: Bytes, threshold: int) returns (r: Result<Coordinator, NewError>)
      ensures r.Err? ==> NewRound(msg, nonce, threshold) == Err(r.error)
      ensures r.Ok? <==> |msg| > 0 && |nonce| == 32 && threshold >= 1
      ensures r.Ok? ==> r.value.Model() == Round(msg, nonce, threshold, [], None)
      ensures r.Err? ==>
        r.error == if |msg| == 0 then EmptyMessage else if |nonce| != 32 then BadNonce else BadThreshold
      ensures r.Ok? ==> fresh(r.value) && r.value.Consistent() && r.value.d == d
      ensures r.Ok? ==> NewRound(msg, nonce, threshold) == Ok(r.value.Model())
    {
      if |msg| == 0 {
        return Err(EmptyMessage);
      }
      if |nonce| != NONCE_SIZE {
        return Err(BadNonce);
      }
      if threshold < 1 {
        return Err(BadThreshold);
      }
      var c := new Coordinator(d, Round(msg, nonce, threshold, [], None));
      return Ok(c);
    }

    method SubmitPartial(p: Partial) returns (r: Result<Option<Bundle>, SubmitError>)
      requires Consistent()
      modifies this
      ensures Consistent()
      ensures (Model(), r) == Submit(d, old(Model()), p)
    {
      if done {
        return Ok(authorised);
      }
      if p.nonce != nonce {
        return Err(NonceMismatch);
      }
      for i := 0 to |partials|
        invariant !SignedBy(d, partials[..i], p.signerID)
        invariant Model() == old(Model()) && !done
      {
        if partials[i].signerID == p.signerID {
          return Err(DuplicateSigner);
        }
      }
      assert partials[..|partials|] == partials;
      if !d.validPk(p.publicKey) {
        return Err(BadKey);
      }
      var bh := BindingHash(d, nonce, msg);
      if !d.verify(p.publicKey, bh, p.signature) {
        return Err(BadSignature);
      }
      partials := partials + [p];
      if |partials| >= threshold {
        authorised := Some(Bundle(threshold, d.sha(msg), nonce, partials[..threshold]));
        done := true;
        return Ok(authorised);
      }
      return Ok(None);
    }
  }
}
