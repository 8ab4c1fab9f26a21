// The secure channel: handshake, record protection, and delivery over a hostile network.
module Channel {
  import opened Common

  // SHA-256, HKDF, AES-256-GCM, ML-KEM-768 and ML-DSA-65 as the code calls them. A key pair is
  // named by its secret part.
  datatype Suite = Suite(
    sha: Bytes -> Bytes,
    hkdf: (Bytes, Bytes, Bytes, nat) -> Bytes,
    seal: (Bytes, Bytes, Bytes, Bytes) -> Bytes,
    open: (Bytes, Bytes, Bytes, Bytes) -> Option<Bytes>,
    ekOf: Bytes -> Bytes, validEk: Bytes -> bool,
    encapsulate: (Bytes, Bytes) -> (Bytes, Bytes), decapsulate: (Bytes, Bytes) -> Option<Bytes>,
    pkOf: Bytes -> Bytes, validPk: Bytes -> bool,
    sign: (Bytes, Bytes) -> Bytes, verify: (Bytes, Bytes, Bytes) -> bool)

  const EK_SIZE := 1184
  const KEM_CT_SIZE := 1088
  const PK_SIZE := 1952

  ghost predicate Correct(d: Suite) {
    && (forall secret, salt, info, n :: |d.hkdf(secret, salt, info, n)| == n)
    && (forall k, n, p, a :: d.open(k, n, d.seal(k, n, p, a), a) == Some(p))
    && (forall dk :: d.validEk(d.ekOf(dk)))
    && (forall dk, r :: d.decapsulate(dk, d.encapsulate(d.ekOf(dk), r).1) == Some(d.encapsulate(d.ekOf(dk), r).0))
    && (forall sk :: d.validPk(d.pkOf(sk)))
    && (forall sk, m :: d.verify(d.pkOf(sk), m, d.sign(sk, m)))
  }

  // Only encodings of the fixed lengths parse.
  ghost predicate FixedSizes(d: Suite) {
    && (forall ek :: d.validEk(ek) ==> |ek| == EK_SIZE)
    && (forall pk :: d.validPk(pk) ==> |pk| == PK_SIZE)
    && (forall dk, ct :: d.decapsulate(dk, ct).Some? ==> |ct| == KEM_CT_SIZE)
    && (forall ek, r :: d.validEk(ek) ==> |d.encapsulate(ek, r).1| == KEM_CT_SIZE)
  }

  // ---------- Sessions ----------

  type U64 = x: int | 0 <= x < 0x1_0000_0000_0000_0000

  datatype Session = Session(id: Bytes, sessionKey: Bytes, sendKey: Bytes, recvKey: Bytes, sendSeq: U64, recvMax: U64)

  datatype Message = Message(sessionID: Bytes, seqNum: U64, ciphertext: Bytes)

  datatype OpenError = BadNonceLength | NonceMismatch | Replayed | DecryptionFailed

  predicate WellFormed(s: Session) {
    |s.sessionKey| == 16
  }

  function BuildNonce(sessionKey: Bytes, n: U64): (b: Bytes)
    requires |sessionKey| == 16
    ensures |b| == 12
  {
    sessionKey[..8] + BigEndian(4, n % UINT32)
  }

  function Aad(n: U64): Bytes {
    BigEndian(8, n)
  }

  function NextSeq(n: U64): U64 {
    (n + 1) % UINT64
  }

  function Seal(d: Suite, s: Session, plain: Bytes): (Session, Message)
    requires WellFormed(s)
  {
    var n := NextSeq(s.sendSeq);
    (s.(sendSeq := n), Message(s.sessionKey, n, d.seal(s.sendKey, BuildNonce(s.sessionKey, n), plain, Aad(n))))
  }

  // The part of Open up to the release of the lock; the number stays claimed whatever comes next.
  function Claim(s: Session, m: Message): Result<Session, OpenError>
    requires WellFormed(s)
  {
    if |m.sessionID| != 16 then Err(BadNonceLength)
    else if m.sessionID != s.sessionKey then Err(NonceMismatch)
    else if m.seqNum == 0 || m.seqNum <= s.recvMax then Err(Replayed)
    else Ok(s.(recvMax := m.seqNum))
  }

  // The part of Open after the lock
  function Decipher(d: Suite, s: Session, m: Message): Option<Bytes>
    requires WellFormed(s)
  {
    d.open(s.recvKey, BuildNonce(s.sessionKey, m.seqNum), m.ciphertext, Aad(m.seqNum))
  }

  function Open(d: Suite, s: Session, m: Message): (Session, Result<Bytes, OpenError>)
    requires WellFormed(s)
  {
    var c := Claim(s, m);
    if c.Err? then (s, Err(c.error))
    else
      var p := Decipher(d, c.value, m);
      (c.value, if p.None? then Err(DecryptionFailed) else Ok(p.value))
  }

  class LiveSession {
    const d: Suite
    const id: Bytes
    const sessionKey: Bytes
    const sendKey: Bytes
    const recvKey: Bytes
    var sendSeq: U64
    var recvMax: U64

    function Model(): Session
      reads this
    {
      Session(id, sessionKey, sendKey, recvKey, sendSeq, recvMax)
    }

    constructor (d: Suite, s: Session)
      ensures Model() == s && this.d == d
    {
      this.d := d;
      id, sessionKey, sendKey, recvKey := s.id, s.sessionKey, s.sendKey, s.recvKey;
      sendSeq, recvMax := s.sendSeq, s.recvMax;
    }

    method SealMessage(plain: Bytes) returns (m: Message)
      requires WellFormed(Model())
      modifies this`sendSeq
      ensures (Model(), m) == Seal(d, old(Model()), plain)
    {
      sendSeq := (sendSeq + 1) % UINT64;
      var ct := d.seal(sendKey, BuildNonce(sessionKey, sendSeq), plain, Aad(sendSeq));
      m := Message(sessionKey, sendSeq, ct);
    }

    // A failed decryption leaves the number claimed.
    method OpenMessage(m: Message) returns (r: Result<Bytes, OpenError>)
      requires WellFormed(Model())
      modifies this`recvMax
      ensures (Model(), r) == Open(d, old(Model()), m)
    {
      if |m.sessionID| != 16 {
        return Err(BadNonceLength);
      }
      for i := 0 to 16
        invariant forall k :: 0 <= k < i ==> m.sessionID[k] == sessionKey[k]
      {
        if m.sessionID[i] != sessionKey[i] {
          return Err(NonceMismatch);
        }
      }
      assert m.sessionID == sessionKey;
      if m.seqNum == 0 || m.seqNum <= recvMax {
        return Err(Replayed);
      }
      recvMax := m.seqNum;
      var plain := d.open(recvKey, BuildNonce(sessionKey, m.seqNum), m.ciphertext, Aad(m.seqNum));
      if plain.None? {
        return Err(DecryptionFailed);
      }
      return Ok(plain.value);
    }
  }

  // ---------- Nonces ----------

  lemma {:induction false} AadInjective(m: U64, n: U64)
    requires Aad(m) == Aad(n)
    ensures m == n
  {
    PowersUsed();
    BigEndianInjective(8, m, n);
  }

  // The nonce is the first half of the session nonce and the number modulo 2^32, most significant byte first; the
  // additional data is the whole number.
  lemma {:induction false} NonceLayout(sessionKey: Bytes, n: U64)
    requires |sessionKey| == 16
    ensures
      var nonce := BuildNonce(sessionKey, n);
      && (forall i :: 0 <= i < 8 ==> nonce[i] == sessionKey[i])
      && |nonce[8..]| == 4 && Number(nonce[8..]) == n % 0x1_0000_0000
      && |Aad(n)| == 8 && Number(Aad(n)) == n
  {
    PowersUsed();
    BigEndianDecodes(4, n % UINT32);
    BigEndianDecodes(8, n);
    hide Pow256, BigEndian, Number;
    RemainderIs(n % UINT32, UINT32, 0, n % UINT32);
    RemainderIs(n, UINT64, 0, n);
    assert BuildNonce(sessionKey, n)[8..] == BigEndian(4, n % UINT32);
  }

  // What a Seal sends, and that it moves nothing but the counter
  lemma {:induction false} SealEffect(d: Suite, s: Session, plain: Bytes)
    requires WellFormed(s)
    ensures
      var (t, m) := Seal(d, s, plain);
      && m.sessionID == s.sessionKey && m.seqNum == (s.sendSeq + 1) % 0x1_0000_0000_0000_0000
      && t == s.(sendSeq := m.seqNum)
      && m.ciphertext == d.seal(s.sendKey, BuildNonce(s.sessionKey, m.seqNum), plain, Aad(m.seqNum))
  {
    hide BuildNonce, Aad;
  }

  // A message is claimed exactly when it carries this session's nonce and a number above all claimed before, and
  // only the highest number moves. The errors name the first of these that does not hold.
  lemma {:induction false} ClaimExactly(s: Session, m: Message)
    requires WellFormed(s)
    ensures
      var c := Claim(s, m);
      && (c.Ok? <==> m.sessionID == s.sessionKey && m.seqNum > s.recvMax)
      && (c.Ok? ==> c.value == s.(recvMax := m.seqNum))
      && (c == Err(BadNonceLength) <==> |m.sessionID| != 16)
      && (c == Err(NonceMismatch) <==> |m.sessionID| == 16 && m.sessionID != s.sessionKey)
      && (c == Err(Replayed) <==> m.sessionID == s.sessionKey && m.seqNum <= s.recvMax)
  {}

  // A message of another session is refused, whatever else it holds, and changes nothing.
  lemma {:induction false} OtherSessionRefused(d: Suite, s: Session, m: Message)
    requires WellFormed(s) && m.sessionID != s.sessionKey
    ensures Open(d, s, m).0 == s
    ensures Open(d, s, m).1 == Err(if |m.sessionID| == 16 then NonceMismatch else BadNonceLength)
  {
    hide BuildNonce, Aad;
  }

  // Numbers that agree modulo 2^32, and only those, share a GCM nonce.
  lemma {:induction false} NonceCollision(sessionKey: Bytes, m: U64, n: U64)
    requires |sessionKey| == 16
    ensures BuildNonce(sessionKey, m) == BuildNonce(sessionKey, n) <==> m % UINT32 == n % UINT32
  {
    PowersUsed();
    hide Pow256, BigEndian;
    var a, b := m % UINT32, n % UINT32;
    assert BuildNonce(sessionKey, m)[8..] == BigEndian(4, a) && BuildNonce(sessionKey, n)[8..] == BigEndian(4, b);
    if BigEndian(4, a) == BigEndian(4, b) {
      BigEndianInjective(4, a, b);
    }
  }

  // The number of the i-th Seal of a session, counting from zero
  function SealNumber(i: nat): U64 {
    (i + 1) % UINT64
  }

  lemma {:induction false} TruncatedTwice(i: nat)
    ensures SealNumber(i) % UINT32 == (i + 1) % UINT32
  {
    var q := (i + 1) / UINT64;
    assert i + 1 == UINT32 * (UINT32 * q) + SealNumber(i);
  }

  lemma {:induction false} SameResidue(a: nat, b: nat)
    ensures a % UINT32 == b % UINT32 <==> (a - b) % UINT32 == 0
  {
  }

  lemma {:induction false} SealNonces(sessionKey: Bytes, i: nat, j: nat)
    requires |sessionKey| == 16
    ensures BuildNonce(sessionKey, SealNumber(i)) == BuildNonce(sessionKey, SealNumber(j)) <==> (i - j) % UINT32 == 0
  {
    NonceCollision(sessionKey, SealNumber(i), SealNumber(j));
    TruncatedTwice(i);
    TruncatedTwice(j);
    SameResidue(i + 1, j + 1);
  }

  lemma {:induction false} CloseNumbers(i: nat, j: nat)
    requires i < j < UINT32
    ensures (i - j) % UINT32 != 0
  {
    assert 0 < i - j + UINT32 < UINT32;
  }

  // ---------- Handshake ----------

  function Ascii(s: string): Bytes {
    seq(|s|, i requires 0 <= i < |s| => s[i] as int)
  }

  // What a transcript hashes
  function Labelled(tag: string, sid: Bytes, middle: Bytes, pk: Bytes): Bytes {
    Ascii(tag) + sid + middle + pk
  }

  function Transcript1(d: Suite, sid: Bytes, ek: Bytes, pk: Bytes): Bytes {
    d.sha(Labelled("qs-ch-t1:", sid, ek, pk))
  }

  function Transcript2(d: Suite, sid: Bytes, ct: Bytes, pk: Bytes): Bytes {
    d.sha(Labelled("qs-ch-t2:", sid, ct, pk))
  }

  // The layout of the two transcripts, from the label on
  lemma {:induction false} TranscriptLayout(d: Suite, sid: Bytes, ek: Bytes, ct: Bytes, pk: Bytes)
    ensures exists a: Bytes :: Transcript1(d, sid, ek, pk) == d.sha(a) && LaidOut(a, "qs-ch-t1:", sid, ek, pk)
    ensures exists b: Bytes :: Transcript2(d, sid, ct, pk) == d.sha(b) && LaidOut(b, "qs-ch-t2:", sid, ct, pk)
  {
    LabelledLaidOut("qs-ch-t1:", sid, ek, pk);
    LabelledLaidOut("qs-ch-t2:", sid, ct, pk);
    assert Transcript1(d, sid, ek, pk) == d.sha(Labelled("qs-ch-t1:", sid, ek, pk));
    assert Transcript2(d, sid, ct, pk) == d.sha(Labelled("qs-ch-t2:", sid, ct, pk));
  }

  predicate LaidOut(hashed: Bytes, tag: string, sid: Bytes, middle: Bytes, pk: Bytes) {
    var n, m := |tag| + |sid|, |tag| + |sid| + |middle|;
    && |hashed| == m + |pk|
    && (forall i :: 0 <= i < |tag| ==> hashed[i] == tag[i] as int)
    && hashed[|tag|..n] == sid && hashed[n..m] == middle && hashed[m..] == pk
  }

  lemma {:induction false} LabelledLaidOut(tag: string, sid: Bytes, middle: Bytes, pk: Bytes)
    ensures LaidOut(Labelled(tag, sid, middle, pk), tag, sid, middle, pk)
  {}

  // sendKey and recvKey are named from the initiator's side.
  function DeriveSession(d: Suite, sid: Bytes, secret: Bytes, isResponder: bool): Session {
    var salt := d.sha(Ascii("qs-channel-session-salt-v1") + Ascii(":") + sid);
    var k0 := d.hkdf(secret, salt, SEND_LABEL, 32);
    var k1 := d.hkdf(secret, salt, RECV_LABEL, 32);
    var nonce := d.hkdf(secret, salt, Ascii("qs-channel-session-nonce-v1"), 16);
    if isResponder then Session(sid, nonce, k1, k0, 0, 0) else Session(sid, nonce, k0, k1, 0, 0)
  }

  const SEND_LABEL := Ascii("qs-channel-send-key-v1")
  const RECV_LABEL := Ascii("qs-channel-recv-key-v1")

  // HKDF gives different keys for the two labels.
  ghost predicate LabelsSeparate(d: Suite) {
    forall secret, salt :: d.hkdf(secret, salt, SEND_LABEL, 32) != d.hkdf(secret, salt, RECV_LABEL, 32)
  }

  // The two directions of a derived session have different keys.
  lemma {:induction false} DirectionsSeparate(d: Suite, sid: Bytes, secret: Bytes, isResponder: bool)
    requires LabelsSeparate(d)
    ensures DeriveSession(d, sid, secret, isResponder).sendKey != DeriveSession(d, sid, secret, isResponder).recvKey
  {
    hide Ascii;
  }

  // Where the values of a session come from: the two keys and the session nonce are derived from the secret under
  // three labels and a salt of the session ID, the initiator sends under the first key, and counting starts at zero.
  lemma {:induction false} SessionDerived(d: Suite, sid: Bytes, secret: Bytes)
    ensures
      var s, t := DeriveSession(d, sid, secret, false), DeriveSession(d, sid, secret, true);
      var salt := d.sha(Ascii("qs-channel-session-salt-v1:") + sid);
      && s.id == t.id == sid && s.sendSeq == 0 && s.recvMax == 0 && t.sendSeq == 0 && t.recvMax == 0
      && s.sendKey == t.recvKey == d.hkdf(secret, salt, Ascii("qs-channel-send-key-v1"), 32)
      && s.recvKey == t.sendKey == d.hkdf(secret, salt, Ascii("qs-channel-recv-key-v1"), 32)
      && s.sessionKey == t.sessionKey == d.hkdf(secret, salt, Ascii("qs-channel-session-nonce-v1"), 16)
  {
    assert Ascii("qs-channel-session-salt-v1") + Ascii(":") == Ascii("qs-channel-session-salt-v1:");
  }

  // Each side receives with the key that the other sends with.
  predicate Matching(s: Session, t: Session) {
    && s.id == t.id
    && s.sessionKey == t.sessionKey
    && s.sendKey == t.recvKey
    && s.recvKey == t.sendKey
  }

  datatype InitRequest = InitRequest(sid: Bytes, ek: Bytes, pk: Bytes, signature: Bytes)
  datatype InitResponse = InitResponse(sid: Bytes, kemCt: Bytes, pk: Bytes, signature: Bytes)

  datatype HandshakeError =
    | NotBegun | SessionMismatch | BadKey | BadSignature | BadEphemeral | DecapsulationFailed

  function Accept(
    d: Suite, sk: Bytes, req: InitRequest, random: Bytes): Result<(InitResponse, Session), HandshakeError>
  {
    if !d.validPk(req.pk) then Err(BadKey)
    else if !d.verify(req.pk, Transcript1(d, req.sid, req.ek, req.pk), req.signature) then Err(BadSignature)
    else if !d.validEk(req.ek) then Err(BadEphemeral)
    else
      var (secret, ct) := d.encapsulate(req.ek, random);
      var t2 := Transcript2(d, req.sid, ct, d.pkOf(sk));
      Ok((InitResponse(req.sid, ct, d.pkOf(sk), d.sign(sk, t2)), DeriveSession(d, req.sid, secret, true)))
  }

  function Begin(d: Suite, sk: Bytes, ephemeral: Bytes, sid: Bytes): InitRequest {
    var ek, pk := d.ekOf(ephemeral), d.pkOf(sk);
    InitRequest(sid, ek, pk, d.sign(sk, Transcript1(d, sid, ek, pk)))
  }

  function Complete(d: Suite, ephemeral: Bytes, sid: Bytes, resp: InitResponse): Result<Session, HandshakeError> {
    if resp.sid != sid then Err(SessionMismatch)
    else if !d.validPk(resp.pk) then Err(BadKey)
    else if !d.verify(resp.pk, Transcript2(d, resp.sid, resp.kemCt, resp.pk), resp.signature) then Err(BadSignature)
    else
      var secret := d.decapsulate(ephemeral, resp.kemCt);
      if secret.None? then Err(DecapsulationFailed) else Ok(DeriveSession(d, sid, secret.value, false))
  }

  class Initiator {
    const d: Suite
    const sk: Bytes
    var sid: Bytes
    var ephemeral: Bytes
    var req: Option<InitRequest>

    constructor (d: Suite, sk: Bytes)
      ensures this.d == d && this.sk == sk && req == None
    {
      this.d, this.sk := d, sk;
      sid, ephemeral, req := [], [], None;
    }

    // dk and sessionID are the fresh random values of this call.
    method BeginHandshake(dk: Bytes, sessionID: Bytes) returns (r: InitRequest)
      modifies this
      ensures r == Begin(d, sk, dk, sessionID)
      ensures req == Some(r) && ephemeral == dk && sid == sessionID
    {
      ephemeral := dk;
      sid := sessionID;
      var ek, pk := d.ekOf(dk), d.pkOf(sk);
      var signature := d.sign(sk, Transcript1(d, sid, ek, pk));
      r := InitRequest(sid, ek, pk, signature);
      req := Some(r);
    }

    method CompleteHandshake(resp: InitResponse) returns (r: Result<Session, HandshakeError>)
      ensures r == if req.None? then Err(NotBegun) else Complete(d, ephemeral, sid, resp)
    {
      if req.None? {
        return Err(NotBegun);
      }
      if resp.sid != sid {
        return Err(SessionMismatch);
      }
      if !d.validPk(resp.pk) {
        return Err(BadKey);
      }
      var t2 := Transcript2(d, resp.sid, resp.kemCt, resp.pk);
      if !d.verify(resp.pk, t2, resp.signature) {
        return Err(BadSignature);
      }
      var secret := d.decapsulate(ephemeral, resp.kemCt);
      if secret.None? {
        return Err(DecapsulationFailed);
      }
      return Ok(DeriveSession(d, sid, secret.value, false));
    }
  }

  // Accept takes exactly the requests with a parsing key, a signature over the transcript and a parsing ephemeral
  // key, and answers under its own key; the errors name the first of these that does not hold.
  lemma {:induction false} AcceptExactly(d: Suite, sk: Bytes, req: InitRequest, random: Bytes)
    ensures
      var r, t1 := Accept(d, sk, req, random), Transcript1(d, req.sid, req.ek, req.pk);
      && (r.Ok? <==> d.validPk(req.pk) && d.verify(req.pk, t1, req.signature) && d.validEk(req.ek))
      && (r == Err(BadKey) <==> !d.validPk(req.pk))
      && (r == Err(BadSignature) <==> d.validPk(req.pk) && !d.verify(req.pk, t1, req.signature))
      && (r.Err? && r != Err(BadKey) && r != Err(BadSignature) ==> r == Err(BadEphemeral) && !d.validEk(req.ek))
      && (r.Ok? ==>
            var (resp, session) := r.value;
            var (secret, ct) := d.encapsulate(req.ek, random);
            && resp.sid == req.sid && resp.pk == d.pkOf(sk) && resp.kemCt == ct
            && resp.signature == d.sign(sk, Transcript2(d, req.sid, ct, d.pkOf(sk)))
            && session == DeriveSession(d, req.sid, secret, true))
  {
    hide Transcript1, Transcript2, DeriveSession;
  }

  // Complete takes exactly the responses to this session ID with a parsing key, a signature over the transcript and
  // a ciphertext that decapsulates.
  lemma {:induction false} CompleteExactly(d: Suite, ephemeral: Bytes, sid: Bytes, resp: InitResponse)
    ensures
      var r, t2 := Complete(d, ephemeral, sid, resp), Transcript2(d, sid, resp.kemCt, resp.pk);
      var secret := d.decapsulate(ephemeral, resp.kemCt);
      && (r.Ok? <==>
            resp.sid == sid && d.validPk(resp.pk) && d.verify(resp.pk, t2, resp.signature) && secret.Some?)
      && (r.Ok? ==> r.value == DeriveSession(d, sid, secret.value, false))
      && (r == Err(SessionMismatch) <==> resp.sid != sid)
      && (r == Err(BadKey) <==> resp.sid == sid && !d.validPk(resp.pk))
      && (r == Err(BadSignature) <==> resp.sid == sid && d.validPk(resp.pk) && !d.verify(resp.pk, t2, resp.signature))
      && (r.Err? && r.error !in {SessionMismatch, BadKey, BadSignature} ==>
            r == Err(DecapsulationFailed) && secret.None?)
  {
    hide Transcript1, Transcript2, DeriveSession;
  }

  // The secret that the responder encapsulated for a request, and the one that the initiator gets out of a response
  function ResponderSecret(d: Suite, req: InitRequest, random: Bytes): Bytes {
    d.encapsulate(req.ek, random).0
  }

  // Whatever keys, signatures and messages were replaced on the way, two sides that agree on session ID,
  // ephemeral key and KEM ciphertext hold matching sessions.
  lemma {:induction false} AgreeingSidesMatch(
    d: Suite, sk: Bytes, req: InitRequest, random: Bytes, ephemeral: Bytes, sid: Bytes, resp: InitResponse)
    requires Correct(d)
    requires Accept(d, sk, req, random).Ok? && Complete(d, ephemeral, sid, resp).Ok?
    requires req.sid == sid && req.ek == d.ekOf(ephemeral)
    requires resp.kemCt == Accept(d, sk, req, random).value.0.kemCt
    ensures WellFormed(Complete(d, ephemeral, sid, resp).value)
    ensures Matching(Complete(d, ephemeral, sid, resp).value, Accept(d, sk, req, random).value.1)
  {
    hide Ascii;
    assert d.decapsulate(ephemeral, resp.kemCt) == Some(ResponderSecret(d, req, random));
  }

  // An undisturbed handshake succeeds on both sides and gives matching sessions.
  lemma {:induction false} HandshakeMatches(
    d: Suite, initiator: Bytes, responder: Bytes, ephemeral: Bytes, sid: Bytes, random: Bytes)
    requires Correct(d)
    ensures var accepted := Accept(d, responder, Begin(d, initiator, ephemeral, sid), random);
            accepted.Ok? &&
            var completed := Complete(d, ephemeral, sid, accepted.value.0);
            completed.Ok? && WellFormed(completed.value) && Matching(completed.value, accepted.value.1)
  {
    hide Ascii;
    var req := Begin(d, initiator, ephemeral, sid);
    HonestRequestAccepted(d, initiator, responder, ephemeral, sid, random);
    var accepted := Accept(d, responder, req, random).value.0;
    assert d.decapsulate(ephemeral, accepted.kemCt) == Some(ResponderSecret(d, req, random));
    AgreeingSidesMatch(d, responder, req, random, ephemeral, sid, accepted);
  }

  lemma {:induction false} HonestRequestAccepted(
    d: Suite, initiator: Bytes, responder: Bytes, ephemeral: Bytes, sid: Bytes, random: Bytes)
    requires Correct(d)
    ensures var accepted := Accept(d, responder, Begin(d, initiator, ephemeral, sid), random);
            && accepted.Ok? && accepted.value.0.sid == sid && d.validPk(accepted.value.0.pk)
            && d.verify(accepted.value.0.pk,
                        Transcript2(d, sid, accepted.value.0.kemCt, accepted.value.0.pk), accepted.value.0.signature)
  {
    hide Ascii;
    var req := Begin(d, initiator, ephemeral, sid);
    assert d.verify(req.pk, Transcript1(d, sid, req.ek, req.pk), req.signature);
    assert d.validPk(req.pk) && d.validEk(req.ek);
    var resp := Accept(d, responder, req, random).value.0;
    assert d.verify(resp.pk, Transcript2(d, sid, resp.kemCt, resp.pk), resp.signature);
    assert d.validPk(resp.pk);
  }

  // A ciphertext made for another key decapsulates all the same, but to another secret.
  ghost predicate ImplicitRejection(d: Suite) {
    forall dk, ek, r :: d.validEk(ek) && ek != d.ekOf(dk) ==>
      d.decapsulate(dk, d.encapsulate(ek, r).1).Some?
      && d.decapsulate(dk, d.encapsulate(ek, r).1).value != d.encapsulate(ek, r).0
  }

  // These two secrets, if they differ, give the session different keys.
  predicate SecretsSeparate(d: Suite, sid: Bytes, a: Option<Bytes>, b: Bytes) {
    a.Some? && a.value != b ==>
      DeriveSession(d, sid, a.value, false).sendKey != DeriveSession(d, sid, b, false).sendKey
  }

  // The response to an accepted request completes to a matching session if and only if the request carried the
  // initiator's own ephemeral key and session ID.
  lemma {:induction false} MatchingExactly(
    d: Suite, sk: Bytes, req: InitRequest, random: Bytes, ephemeral: Bytes, sid: Bytes, resp: InitResponse)
    requires Correct(d) && ImplicitRejection(d)
    requires SecretsSeparate(d, sid, d.decapsulate(ephemeral, resp.kemCt), ResponderSecret(d, req, random))
    requires Accept(d, sk, req, random).Ok? && Complete(d, ephemeral, sid, resp).Ok?
    requires resp.kemCt == Accept(d, sk, req, random).value.0.kemCt
    ensures Matching(Complete(d, ephemeral, sid, resp).value, Accept(d, sk, req, random).value.1)
       <==> req.sid == sid && req.ek == d.ekOf(ephemeral)
  {
    if req.sid == sid && req.ek == d.ekOf(ephemeral) {
      AgreeingSidesMatch(d, sk, req, random, ephemeral, sid, resp);
    } else if req.sid == sid {
      hide Ascii;
      var mine, theirs := d.decapsulate(ephemeral, resp.kemCt).value, ResponderSecret(d, req, random);
      assert mine != theirs;
      OtherSideKeys(d, sid, theirs);
      assert DeriveSession(d, sid, mine, false).sendKey != DeriveSession(d, sid, theirs, false).sendKey;
    }
  }

  lemma {:induction false} OtherSideKeys(d: Suite, sid: Bytes, secret: Bytes)
    ensures DeriveSession(d, sid, secret, true).recvKey == DeriveSession(d, sid, secret, false).sendKey
  {
    hide Ascii;
  }

  // The input on which both sides succeed and do not match: a third party begins under the initiator's session
  // ID with keys of its own, and the initiator gets the response. The response covers neither ephemeral key nor
  // initiator.
  lemma {:induction false} ForeignResponseCompletes(
    d: Suite, third: Bytes, own: Bytes, responder: Bytes, ephemeral: Bytes, sid: Bytes, random: Bytes)
    requires Correct(d) && ImplicitRejection(d) && d.ekOf(own) != d.ekOf(ephemeral)
    requires var (secret, ct) := d.encapsulate(d.ekOf(own), random);
             SecretsSeparate(d, sid, d.decapsulate(ephemeral, ct), secret)
    ensures var accepted := Accept(d, responder, Begin(d, third, own, sid), random);
            accepted.Ok? &&
            var completed := Complete(d, ephemeral, sid, accepted.value.0);
            completed.Ok? && !Matching(completed.value, accepted.value.1)
  {
    hide Ascii;
    var req := Begin(d, third, own, sid);
    HonestRequestAccepted(d, third, responder, own, sid, random);
    var resp := Accept(d, responder, req, random).value.0;
    assert d.validEk(req.ek);
    assert d.decapsulate(ephemeral, resp.kemCt).Some?;
    MatchingExactly(d, responder, req, random, ephemeral, sid, resp);
  }

  // What the holder of a long-term key signs, in either role
  datatype Signed =
    | AsInitiator(sid: Bytes, ek: Bytes)
    | AsResponder(sid: Bytes, kemCt: Bytes)

  function SignedHash(d: Suite, pk: Bytes, s: Signed): Bytes {
    match s
    case AsInitiator(sid, ek) => Transcript1(d, sid, ek, pk)
    case AsResponder(sid, ct) => Transcript2(d, sid, ct, pk)
  }

  predicate SizesFit(s: Signed) {
    match s
    case AsInitiator(_, ek) => |ek| == EK_SIZE
    case AsResponder(_, ct) => |ct| == KEM_CT_SIZE
  }

  ghost predicate CollisionFree(d: Suite) {
    forall a, b :: d.sha(a) == d.sha(b) ==> a == b
  }

  // The signature is no forgery: whatever it verifies for under the key, its holder has signed.
  ghost predicate SignatureNotForged(d: Suite, pk: Bytes, sig: Bytes, log: set<Signed>) {
    && (forall s :: s in log ==> SizesFit(s))
    && (forall m :: d.verify(pk, m, sig) ==> exists s :: s in log && SignedHash(d, pk, s) == m)
  }

  // Fixed lengths make the concatenated transcripts injective, and the labels keep them apart.
  lemma {:induction false} TranscriptsInjective(d: Suite, pk: Bytes, s: Signed, t: Signed)
    requires CollisionFree(d) && SizesFit(s) && SizesFit(t) && SignedHash(d, pk, s) == SignedHash(d, pk, t)
    ensures s == t
  {
    var l1, l2 := Ascii("qs-ch-t1:"), Ascii("qs-ch-t2:");
    assert l1[7] == '1' as int && l2[7] == '2' as int;
    hide Ascii;
    var (la, a, b) := if s.AsInitiator? then (l1, s.sid, s.ek) else (l2, s.sid, s.kemCt);
    var (lc, c, e) := if t.AsInitiator? then (l1, t.sid, t.ek) else (l2, t.sid, t.kemCt);
    assert la + a + b + pk == lc + c + e + pk;
    CancelSuffix(la + a + b, lc + c + e, pk);
    assert la[7] == (la + a + b)[7] && lc[7] == (lc + c + e)[7];
    assert la == lc;
    CancelSuffixes(la + a, b, lc + c, e);
    assert a == (la + a)[|la|..] && c == (lc + c)[|lc|..];
  }

  lemma {:induction false} CancelSuffix(a: Bytes, b: Bytes, c: Bytes)
    requires a + c == b + c
    ensures a == b
  {
    assert |a + c| == |b + c|;
    assert a == (a + c)[..|a|] && b == (b + c)[..|b|];
  }

  lemma {:induction false} CancelSuffixes(a: Bytes, b: Bytes, c: Bytes, e: Bytes)
    requires a + b == c + e && |b| == |e|
    ensures a == c && b == e
  {
    assert |a + b| == |c + e|;
    assert a == (a + b)[..|a|] && c == (c + e)[..|c|];
    assert b == (a + b)[|a|..] && e == (c + e)[|c|..];
  }

  // A completed handshake means that the holder of the responder's key accepted this very session ID
  // and produced this very KEM ciphertext for it.
  lemma {:induction false} CompletedWasAccepted(
    d: Suite, ephemeral: Bytes, sid: Bytes, resp: InitResponse, log: set<Signed>)
    requires CollisionFree(d) && FixedSizes(d) && SignatureNotForged(d, resp.pk, resp.signature, log)
    requires Complete(d, ephemeral, sid, resp).Ok?
    ensures AsResponder(sid, resp.kemCt) in log
  {
    hide Ascii;
    var mine := AsResponder(sid, resp.kemCt);
    assert d.verify(resp.pk, SignedHash(d, resp.pk, mine), resp.signature);
    assert d.decapsulate(ephemeral, resp.kemCt).Some?;
    var s :| s in log && SignedHash(d, resp.pk, s) == SignedHash(d, resp.pk, mine);
    TranscriptsInjective(d, resp.pk, s, mine);
  }

  // An accepted request means that the holder of the initiator's key began this very session with this
  // very ephemeral key.
  lemma {:induction false} AcceptedWasBegun(
    d: Suite, sk: Bytes, req: InitRequest, random: Bytes, log: set<Signed>)
    requires CollisionFree(d) && FixedSizes(d) && SignatureNotForged(d, req.pk, req.signature, log)
    requires Accept(d, sk, req, random).Ok?
    ensures AsInitiator(req.sid, req.ek) in log
  {
    hide Ascii;
    var mine := AsInitiator(req.sid, req.ek);
    assert d.verify(req.pk, SignedHash(d, req.pk, mine), req.signature);
    assert d.validEk(req.ek);
    var s :| s in log && SignedHash(d, req.pk, s) == SignedHash(d, req.pk, mine);
    TranscriptsInjective(d, req.pk, s, mine);
  }

  // ---------- Delivery ----------

  datatype Sealed = Sealed(n: U64, plain: Bytes)

  // One side: its session, what it sealed, which numbers it claimed, the messages between claim and
  // decryption, and what it delivered
  datatype Endpoint = Endpoint(
    session: Session, sent: seq<Sealed>, claimed: seq<U64>, pending: map<U64, Message>, delivered: seq<Sealed>)

  datatype World = World(a: Endpoint, b: Endpoint)

  // The network may hand any message to either side at any time.
  datatype Event =
    | SealEvent(atA: bool, plain: Bytes)
    | ClaimEvent(atA: bool, message: Message)
    | FinishEvent(atA: bool, n: U64)

  function Act(d: Suite, p: Endpoint, e: Event): Endpoint
    requires WellFormed(p.session)
  {
    match e
    case SealEvent(_, plain) =>
      var (s, m) := Seal(d, p.session, plain);
      p.(session := s, sent := p.sent + [Sealed(m.seqNum, plain)])
    case ClaimEvent(_, m) =>
      var c := Claim(p.session, m);
      if c.Err? then p
      else p.(session := c.value, claimed := p.claimed + [m.seqNum], pending := p.pending[m.seqNum := m])
    case FinishEvent(_, n) =>
      if n !in p.pending then p
      else
        var plain := Decipher(d, p.session, p.pending[n]);
        var q := p.(pending := p.pending - {n});
        if plain.None? then q else q.(delivered := p.delivered + [Sealed(n, plain.value)])
  }

  function Next(d: Suite, w: World, e: Event): (v: World)
    requires WellFormed(w.a.session) && WellFormed(w.b.session)
    ensures WellFormed(v.a.session) && WellFormed(v.b.session)
  {
    if e.atA then w.(a := Act(d, w.a, e)) else w.(b := Act(d, w.b, e))
  }

  function Run(d: Suite, w: World, events: seq<Event>): (v: World)
    requires WellFormed(w.a.session) && WellFormed(w.b.session)
    ensures WellFormed(v.a.session) && WellFormed(v.b.session)
    decreases |events|
  {
    if events == [] then w else Next(d, Run(d, w, events[..|events| - 1]), events[|events| - 1])
  }

  predicate Increasing(s: seq<U64>) {
    forall i, j :: 0 <= i < j < |s| ==> s[i] < s[j]
  }

  // Every claimed number is positive and not above recvMax; a number is pending or delivered at most once.
  predicate EndpointInv(p: Endpoint) {
    && Increasing(p.claimed)
    && (forall n :: n in p.claimed ==> 0 < n <= p.session.recvMax)
    && (forall n :: n in p.pending ==> n in p.claimed && p.pending[n].seqNum == n)
    && (forall i :: 0 <= i < |p.delivered| ==> p.delivered[i].n in p.claimed && p.delivered[i].n !in p.pending)
    && (forall i, j :: 0 <= i < j < |p.delivered| ==> p.delivered[i].n != p.delivered[j].n)
  }

  // A presented message is no forgery: if it opens under the side's sending key, that side has produced
  // its ciphertext, under the same nonce and additional data.
  ghost predicate NotForged(d: Suite, peer: Endpoint, m: Message)
    requires WellFormed(peer.session)
  {
    d.open(peer.session.sendKey, BuildNonce(peer.session.sessionKey, m.seqNum), m.ciphertext, Aad(m.seqNum)).Some? ==>
      exists i :: 0 <= i < |peer.sent| && Produced(d, peer.session, peer.sent[i], m)
  }

  predicate Produced(d: Suite, s: Session, sent: Sealed, m: Message)
    requires WellFormed(s)
  {
    && BuildNonce(s.sessionKey, m.seqNum) == BuildNonce(s.sessionKey, sent.n)
    && Aad(m.seqNum) == Aad(sent.n)
    && m.ciphertext == d.seal(s.sendKey, BuildNonce(s.sessionKey, sent.n), sent.plain, Aad(sent.n))
  }

  // Whatever the pending messages decipher to, the peer sealed it with their number.
  predicate PendingGenuine(d: Suite, p: Endpoint, sent: seq<Sealed>)
    requires WellFormed(p.session)
  {
    forall n :: n in p.pending ==>
      var plain := Decipher(d, p.session, p.pending[n]);
      plain.Some? ==> Sealed(p.pending[n].seqNum, plain.value) in sent
  }

  predicate AllSentBy(delivered: seq<Sealed>, peer: seq<Sealed>) {
    forall i :: 0 <= i < |delivered| ==> delivered[i] in peer
  }

  predicate Inv(d: Suite, w: World)
    requires WellFormed(w.a.session) && WellFormed(w.b.session)
  {
    && Matching(w.a.session, w.b.session)
    && EndpointInv(w.a) && EndpointInv(w.b)
    && AllSentBy(w.a.delivered, w.b.sent) && AllSentBy(w.b.delivered, w.a.sent)
    && PendingGenuine(d, w.a, w.b.sent) && PendingGenuine(d, w.b, w.a.sent)
  }

  lemma {:induction false} ActKeepsEndpoint(d: Suite, p: Endpoint, e: Event)
    requires WellFormed(p.session) && EndpointInv(p)
    ensures EndpointInv(Act(d, p, e))
  {
    hide BuildNonce, Aad;
    match e
    case SealEvent(_, _) =>
    case ClaimEvent(_, m) =>
      hide EndpointInv;
      if Claim(p.session, m).Ok? {
        ClaimKeepsEndpoint(p, m);
      }
    case FinishEvent(_, n) =>
  }

  lemma {:induction false} ClaimKeepsEndpoint(p: Endpoint, m: Message)
    requires WellFormed(p.session) && EndpointInv(p) && m.seqNum > p.session.recvMax
    ensures EndpointInv(p.(session := p.session.(recvMax := m.seqNum), claimed := p.claimed + [m.seqNum],
                           pending := p.pending[m.seqNum := m]))
  {
    var claimed := p.claimed + [m.seqNum];
    assert claimed[|p.claimed|] == m.seqNum;
    forall n | n in p.claimed
      ensures n in claimed && n < m.seqNum
    {
      var i :| 0 <= i < |p.claimed| && p.claimed[i] == n;
      assert claimed[i] == n;
    }
    assert forall n :: n in claimed ==> n in p.claimed || n == m.seqNum;
    assert forall i :: 0 <= i < |p.claimed| ==> p.claimed[i] in p.claimed;
  }

  lemma {:induction false} GenuineMessage(d: Suite, p: Endpoint, peer: Endpoint, m: Message)
    requires Correct(d) && WellFormed(p.session) && WellFormed(peer.session) && Matching(p.session, peer.session)
    requires NotForged(d, peer, m) && Decipher(d, p.session, m).Some?
    ensures Sealed(m.seqNum, Decipher(d, p.session, m).value) in peer.sent
  {
    hide BuildNonce, Aad;
    var i :| 0 <= i < |peer.sent| && Produced(d, peer.session, peer.sent[i], m);
    AadInjective(m.seqNum, peer.sent[i].n);
    assert Decipher(d, p.session, m) == Some(peer.sent[i].plain);
  }

  lemma {:induction false} ActDeliversPeer(d: Suite, p: Endpoint, e: Event, peer: Endpoint)
    requires Correct(d) && WellFormed(p.session) && WellFormed(peer.session) && Matching(p.session, peer.session)
    requires EndpointInv(p) && AllSentBy(p.delivered, peer.sent) && PendingGenuine(d, p, peer.sent)
    requires e.ClaimEvent? ==> NotForged(d, peer, e.message)
    ensures AllSentBy(Act(d, p, e).delivered, peer.sent)
    ensures WellFormed(Act(d, p, e).session) && PendingGenuine(d, Act(d, p, e), peer.sent)
  {
    hide BuildNonce, Aad, EndpointInv, NotForged, Correct;
    match e
    case SealEvent(_, _) =>
    case ClaimEvent(_, m) =>
      if Decipher(d, p.session, m).Some? {
        GenuineMessage(d, p, peer, m);
      }
    case FinishEvent(_, n) =>
      if n in p.pending {
        PendingNumber(p, n);
      }
  }

  lemma {:induction false} PendingNumber(p: Endpoint, n: U64)
    requires EndpointInv(p) && n in p.pending
    ensures p.pending[n].seqNum == n
  {}

  lemma {:induction false} ActFrame(d: Suite, p: Endpoint, e: Event, peer: Endpoint)
    requires WellFormed(p.session) && Matching(p.session, peer.session)
    ensures Matching(Act(d, p, e).session, peer.session)
    ensures |p.sent| <= |Act(d, p, e).sent| && Act(d, p, e).sent[..|p.sent|] == p.sent
  {
    hide BuildNonce, Aad;
  }

  lemma {:induction false} MoreSent(delivered: seq<Sealed>, before: seq<Sealed>, after: seq<Sealed>)
    requires AllSentBy(delivered, before) && |before| <= |after| && after[..|before|] == before
    ensures AllSentBy(delivered, after)
  {
    forall i | 0 <= i < |delivered|
      ensures delivered[i] in after
    {
      var j :| 0 <= j < |before| && before[j] == delivered[i];
      assert after[..|before|][j] == after[j];
    }
  }

  lemma {:induction false} MatchingSymmetric(s: Session, t: Session)
    requires Matching(s, t)
    ensures Matching(t, s)
  {}

  lemma {:induction false} StillGenuine(d: Suite, p: Endpoint, before: seq<Sealed>, after: seq<Sealed>)
    requires WellFormed(p.session) && PendingGenuine(d, p, before) && |before| <= |after| && after[..|before|] == before
    ensures PendingGenuine(d, p, after)
  {
    hide Decipher;
    forall x | x in before
      ensures x in after
    {
      var j :| 0 <= j < |before| && before[j] == x;
      assert after[..|before|][j] == after[j];
    }
  }

  lemma {:induction false} NextKeepsInv(d: Suite, w: World, e: Event)
    requires Correct(d) && WellFormed(w.a.session) && WellFormed(w.b.session) && Inv(d, w)
    requires e.ClaimEvent? ==> NotForged(d, if e.atA then w.b else w.a, e.message)
    ensures Inv(d, Next(d, w, e))
  {
    hide EndpointInv, NotForged, AllSentBy, PendingGenuine, Matching, Act, Correct;
    MatchingSymmetric(w.a.session, w.b.session);
    var (p, peer) := if e.atA then (w.a, w.b) else (w.b, w.a);
    ActKeepsEndpoint(d, p, e);
    ActDeliversPeer(d, p, e, peer);
    ActFrame(d, p, e, peer);
    MoreSent(peer.delivered, p.sent, Act(d, p, e).sent);
    StillGenuine(d, peer, p.sent, Act(d, p, e).sent);
    MatchingSymmetric(Act(d, p, e).session, peer.session);
  }

  // Claiming a message and deciphering it at once is Open: the same session, and a delivery exactly when Open
  // returns a plaintext, under the message's number.
  lemma {:induction false} ClaimThenFinishIsOpen(d: Suite, p: Endpoint, atA: bool, m: Message)
    requires WellFormed(p.session) && EndpointInv(p)
    ensures
      var claimed := Act(d, p, ClaimEvent(atA, m));
      WellFormed(claimed.session) &&
      var q := if Claim(p.session, m).Ok? then Act(d, claimed, FinishEvent(atA, m.seqNum)) else claimed;
      var (s, r) := Open(d, p.session, m);
      && q.session == s && q.sent == p.sent
      && q.delivered == (if r.Ok? then p.delivered + [Sealed(m.seqNum, r.value)] else p.delivered)
      && q.claimed == (if Claim(p.session, m).Ok? then p.claimed + [m.seqNum] else p.claimed)
      && q.pending == p.pending
  {
    hide BuildNonce, Aad;
    if Claim(p.session, m).Ok? {
      assert m.seqNum !in p.pending;
      assert p.pending[m.seqNum := m] - {m.seqNum} == p.pending;
    }
  }

  // A fresh pair of endpoints around matching sessions
  function Established(s: Session, t: Session): World {
    World(Endpoint(s, [], [], map[], []), Endpoint(t, [], [], map[], []))
  }

  // No message that the network hands to a side is a forgery at that moment.
  ghost predicate NeverForged(d: Suite, w: World, events: seq<Event>)
    requires WellFormed(w.a.session) && WellFormed(w.b.session)
  {
    forall k :: 0 <= k < |events| && events[k].ClaimEvent? ==>
      var v := Run(d, w, events[..k]);
      NotForged(d, if events[k].atA then v.b else v.a, events[k].message)
  }

  // Over every run, on both sides, the claimed numbers strictly increase, and each delivered plaintext
  // is one that the peer sealed with that number, delivered once.
  lemma {:induction false} DeliveryCorrect(d: Suite, s: Session, t: Session, events: seq<Event>)
    requires Correct(d) && WellFormed(s) && WellFormed(t) && Matching(s, t)
    requires NeverForged(d, Established(s, t), events)
    ensures Inv(d, Run(d, Established(s, t), events))
    decreases |events|
  {
    hide Correct, NotForged, Matching, EndpointInv;
    var w := Established(s, t);
    if events == [] {
      NothingYet(d, s, t);
    } else {
      var before := events[..|events| - 1];
      assert forall k :: 0 <= k <= |before| ==> before[..k] == events[..k];
      DeliveryCorrect(d, s, t, before);
      NextKeepsInv(d, Run(d, w, before), events[|events| - 1]);
    }
  }

  lemma {:induction false} NothingYet(d: Suite, s: Session, t: Session)
    requires WellFormed(s) && WellFormed(t) && Matching(s, t)
    ensures Inv(d, Established(s, t))
  {}

  // ---------- Nonces over whole runs ----------

  // A side still has the keys it began with, and its i-th Seal took the i-th number.
  predicate Numbered(p: Endpoint, start: Session) {
    && p.session.sessionKey == start.sessionKey
    && p.session.sendKey == start.sendKey
    && p.session.sendSeq == |p.sent| % UINT64
    && forall i :: 0 <= i < |p.sent| ==> p.sent[i].n == SealNumber(i)
  }

  lemma {:induction false} ActKeepsNumbered(d: Suite, p: Endpoint, e: Event, start: Session)
    requires WellFormed(p.session) && Numbered(p, start)
    ensures Numbered(Act(d, p, e), start)
  {
    hide BuildNonce, Aad;
    if e.SealEvent? {
      NextNumber(|p.sent|);
    }
  }

  lemma {:induction false} NextNumber(k: nat)
    ensures NextSeq(k % UINT64) == SealNumber(k) == (k + 1) % UINT64
  {
    var q, r := k / UINT64, k % UINT64;
    assert k + 1 == UINT64 * q + (r + 1);
  }

  // Over every run that starts from fresh sessions, the i-th Seal of a side carries the i-th number.
  lemma {:induction false} SealsNumbered(d: Suite, s: Session, t: Session, events: seq<Event>)
    requires WellFormed(s) && WellFormed(t) && s.sendSeq == 0 && t.sendSeq == 0
    ensures Numbered(Run(d, Established(s, t), events).a, s) && Numbered(Run(d, Established(s, t), events).b, t)
    decreases |events|
  {
    if events != [] {
      var before, last := events[..|events| - 1], events[|events| - 1];
      SealsNumbered(d, s, t, before);
      var w := Run(d, Established(s, t), before);
      hide Numbered, Act;
      if last.atA {
        ActKeepsNumbered(d, w.a, last, s);
      } else {
        ActKeepsNumbered(d, w.b, last, t);
      }
    }
  }

  // The nonce under which a side made its i-th Seal
  function SentNonce(p: Endpoint, i: nat): Bytes
    requires WellFormed(p.session) && i < |p.sent|
  {
    BuildNonce(p.session.sessionKey, p.sent[i].n)
  }

  // In every run, with distinct keys for the two directions, two Seals of a session share key and nonce exactly
  // when one side made both and they are a multiple of 2^32 apart.
  lemma {:induction false} KeyNonceReuse(
    d: Suite, s: Session, t: Session, events: seq<Event>, atA: bool, i: nat, alsoAtA: bool, j: nat)
    requires WellFormed(s) && WellFormed(t) && Matching(s, t) && s.sendSeq == 0 && t.sendSeq == 0
    requires s.sendKey != s.recvKey
    requires var w := Run(d, Established(s, t), events);
             i < |(if atA then w.a else w.b).sent| && j < |(if alsoAtA then w.a else w.b).sent|
    ensures var w := Run(d, Established(s, t), events);
            var p, q := if atA then w.a else w.b, if alsoAtA then w.a else w.b;
            (p.session.sendKey == q.session.sendKey && SentNonce(p, i) == SentNonce(q, j))
            <==> (atA == alsoAtA && (i - j) % UINT32 == 0)
  {
    SealsNumbered(d, s, t, events);
    SealNonces(s.sessionKey, i, j);
    hide BuildNonce, Run, SealNumber;
  }

  // In every run the first 2^32 Seals of a side use pairwise different nonces.
  lemma {:induction false} EarlyNoncesUnique(
    d: Suite, s: Session, t: Session, events: seq<Event>, atA: bool, i: nat, j: nat)
    requires WellFormed(s) && WellFormed(t) && s.sendSeq == 0 && t.sendSeq == 0
    requires var w := Run(d, Established(s, t), events);
             i < j < |(if atA then w.a else w.b).sent| && j < UINT32
    ensures var w := Run(d, Established(s, t), events);
            var p := if atA then w.a else w.b;
            SentNonce(p, i) != SentNonce(p, j)
  {
    SealsNumbered(d, s, t, events);
    SealNonces((if atA then s else t).sessionKey, i, j);
    CloseNumbers(i, j);
    hide BuildNonce, Run, SealNumber;
  }

  // ---------- One message ----------

  // Without interference a sealed message opens to what was sealed.
  lemma {:induction false} SealThenOpen(d: Suite, s: Session, t: Session, plain: Bytes)
    requires Correct(d) && WellFormed(s) && WellFormed(t) && Matching(s, t) && NextSeq(s.sendSeq) > t.recvMax
    ensures Open(d, t, Seal(d, s, plain).1).1 == Ok(plain)
  {
    hide BuildNonce, Aad;
    var n := NextSeq(s.sendSeq);
    var nonce := BuildNonce(s.sessionKey, n);
    assert d.open(s.sendKey, nonce, d.seal(s.sendKey, nonce, plain, Aad(n)), Aad(n)) == Some(plain);
  }

  // A failed Open leaves the session as it was if and only if the message failed before its number was claimed.
  lemma {:induction false} FailedOpenExactly(d: Suite, s: Session, m: Message)
    requires WellFormed(s) && Open(d, s, m).1.Err?
    ensures Open(d, s, m).0 == s <==> Claim(s, m).Err?
  {
    hide BuildNonce, Aad;
  }

  // The input on which a failed Open does change the session: a message with the right session nonce, a high
  // number and a ciphertext that does not open. What the peer sealed under a lower number would have been
  // delivered before and is refused from then on.
  lemma {:induction false} FailedOpenBlocks(d: Suite, s: Session, t: Session, plain: Bytes, m: Message)
    requires Correct(d) && WellFormed(s) && WellFormed(t) && Matching(s, t)
    requires t.recvMax < NextSeq(s.sendSeq) <= m.seqNum
    requires m.sessionID == t.sessionKey && Decipher(d, t, m).None?
    ensures Open(d, t, m).1 == Err(DecryptionFailed)
    ensures Open(d, t, Seal(d, s, plain).1).1 == Ok(plain)
    ensures Open(d, Open(d, t, m).0, Seal(d, s, plain).1).1 == Err(Replayed)
  {
    SealThenOpen(d, s, t, plain);
    hide BuildNonce, Aad;
  }
}
