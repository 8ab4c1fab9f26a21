// The certificate authority: issuing, revoking, verifying, and exporting its state.
module CertAuthority {
  import opened Common

  datatype PublicKey = PublicKey(key: Bytes)
  datatype SecretKey = SecretKey(key: Bytes)

  // The fields of a certificate that its signature covers
  datatype Body = Body(
    version: int, serial: string, subject: string, issuer: string, algorithm: string,
    publicKey: string, publicKeyType: string, notBefore: Time, notAfter: Time, isCA: bool)

  datatype Certificate = Certificate(body: Body, signature: string)

  // ML-DSA-87, base64, key encodings and the canonical JSON of a body
  datatype Suite = Suite(
    encode: Body -> Bytes,
    text: Bytes -> string, untext: string -> Option<Bytes>,
    pkBytes: PublicKey -> Bytes, parsePk: Bytes -> Option<PublicKey>,
    skBytes: SecretKey -> Bytes, parseSk: Bytes -> Option<SecretKey>,
    publicOf: SecretKey -> PublicKey,
    sign: (SecretKey, Bytes) -> Bytes, verify: (PublicKey, Bytes, Bytes) -> bool)

  ghost predicate RoundTrips(d: Suite) {
    && (forall b :: d.untext(d.text(b)) == Some(b))
    && (forall pk :: d.parsePk(d.pkBytes(pk)) == Some(pk))
    && (forall sk :: d.parseSk(d.skBytes(sk)) == Some(sk) && d.text(d.skBytes(sk)) != "")
  }

  ghost predicate SignaturesVerify(d: Suite) {
    forall sk, m :: d.verify(d.publicOf(sk), m, d.sign(sk, m))
  }

  ghost predicate EncodingInjective(d: Suite) {
    forall a, b :: d.encode(a) == d.encode(b) ==> a == b
  }

  // ---------- Issuing ----------

  const SCHEME := "ML-DSA-87"
  const DEFAULT_CA_TTL: int := 10 * 365 * 24 * 3600 * SECOND
  const DEFAULT_LEAF_TTL: int := 365 * 24 * 3600 * SECOND

  // What identifies a CA: its key pair and its own certificate
  datatype Authority = Authority(pk: PublicKey, sk: SecretKey, cert: Certificate)

  function Truncate(now: Time): Time {
    now - now % SECOND
  }

  function AttachSignature(d: Suite, body: Body, sk: SecretKey): Certificate {
    Certificate(body, d.text(d.sign(sk, d.encode(body))))
  }

  function RootBody(d: Suite, subject: string, sk: SecretKey, serial: string, now: Time): Body {
    var t := Truncate(now);
    Body(1, serial, subject, subject, SCHEME, d.text(d.pkBytes(d.publicOf(sk))), SCHEME, t, t + DEFAULT_CA_TTL, true)
  }

  function LeafBody(d: Suite, issuer: Authority, subject: string, keyType: string, key: Bytes,
                    ttl: int, serial: string, now: Time): Body
  {
    var t := Truncate(now);
    Body(1, serial, subject, issuer.cert.body.subject, SCHEME, d.text(key), keyType,
         t, t + if ttl <= 0 then DEFAULT_LEAF_TTL else ttl, false)
  }

  function SubBody(d: Suite, issuer: Authority, subject: string, sk: SecretKey,
                   ttl: int, serial: string, now: Time): Body
  {
    var t := Truncate(now);
    Body(1, serial, subject, issuer.cert.body.subject, SCHEME, d.text(d.pkBytes(d.publicOf(sk))), SCHEME,
         t, t + if ttl <= 0 then DEFAULT_CA_TTL else ttl, true)
  }

  function NewAuthority(d: Suite, body: Body, sk: SecretKey, signer: SecretKey): Authority {
    Authority(d.publicOf(sk), sk, AttachSignature(d, body, signer))
  }

  // What a new certificate says, field by field: the validity starts with the current second and lasts for ttl.
  predicate Describes(d: Suite, b: Body, subject: string, issuer: string, keyType: string, key: Bytes,
                      ttl: int, serial: string, now: Time, isCA: bool)
  {
    && b.version == 1 && b.serial == serial && b.subject == subject && b.issuer == issuer
    && b.algorithm == "ML-DSA-87" && b.publicKeyType == keyType && d.untext(b.publicKey) == Some(key)
    && b.notBefore % SECOND == 0 && b.notBefore <= now < b.notBefore + SECOND
    && b.notAfter - b.notBefore == ttl
    && b.isCA == isCA
  }

  lemma {:induction false} LeafDescribed(d: Suite, issuer: Authority, subject: string, keyType: string, key: Bytes,
                                         ttl: int, serial: string, now: Time)
    requires RoundTrips(d)
    ensures Describes(d, LeafBody(d, issuer, subject, keyType, key, ttl, serial, now), subject,
                      issuer.cert.body.subject, keyType, key, if ttl <= 0 then 365 * 86_400 * SECOND else ttl,
                      serial, now, false)
  {
    assert d.untext(d.text(key)) == Some(key);
  }

  lemma {:induction false} SubDescribed(d: Suite, issuer: Authority, subject: string, sk: SecretKey,
                                        ttl: int, serial: string, now: Time)
    requires RoundTrips(d)
    ensures Describes(d, SubBody(d, issuer, subject, sk, ttl, serial, now), subject, issuer.cert.body.subject,
                      "ML-DSA-87", d.pkBytes(d.publicOf(sk)), if ttl <= 0 then 3650 * 86_400 * SECOND else ttl,
                      serial, now, true)
  {
    assert d.untext(d.text(d.pkBytes(d.publicOf(sk)))) == Some(d.pkBytes(d.publicOf(sk)));
  }

  lemma {:induction false} RootDescribed(d: Suite, subject: string, sk: SecretKey, serial: string, now: Time)
    requires RoundTrips(d)
    ensures Describes(d, RootBody(d, subject, sk, serial, now), subject, subject, "ML-DSA-87",
                      d.pkBytes(d.publicOf(sk)), 3650 * 86_400 * SECOND, serial, now, true)
  {
    assert d.untext(d.text(d.pkBytes(d.publicOf(sk)))) == Some(d.pkBytes(d.publicOf(sk)));
  }

  // ---------- Verifying one certificate against one CA ----------

  datatype VerifyError =
    | NilCertificate | NotYetValid | Expired | IsACA | IssuerMismatch | BadEncoding | BadSignature | Revoked

  function Verdict(
    d: Suite, a: Authority, revoked: map<string, Time>, cert: Option<Certificate>, now: Time): Option<VerifyError>
  {
    if cert.None? then Some(NilCertificate)
    else
      var c := cert.value;
      if now < c.body.notBefore then Some(NotYetValid)
      else if now > c.body.notAfter then Some(Expired)
      else if c.body.isCA then Some(IsACA)
      else if c.body.issuer != a.cert.body.subject then Some(IssuerMismatch)
      else if d.untext(c.signature).None? then Some(BadEncoding)
      else if !d.verify(a.pk, d.encode(c.body), d.untext(c.signature).value) then Some(BadSignature)
      else if c.body.serial in revoked then Some(Revoked)
      else None
  }

  // The certificate's signature verifies under the key.
  predicate CarriesSignature(d: Suite, pk: PublicKey, c: Certificate) {
    var sig := d.untext(c.signature);
    sig.Some? && d.verify(pk, d.encode(c.body), sig.value)
  }

  // Which error goes with which fault, in the order in which they are looked for
  lemma {:induction false} VerdictExplained(
    d: Suite, a: Authority, revoked: map<string, Time>, c: Certificate, now: Time)
    ensures Verdict(d, a, revoked, None, now) == Some(NilCertificate)
    ensures
      var v := Verdict(d, a, revoked, Some(c), now);
      && (v == Some(NotYetValid) <==> now < c.body.notBefore)
      && (v == Some(Expired) <==> now >= c.body.notBefore && now > c.body.notAfter)
      && (v == Some(IsACA) ==> c.body.isCA)
      && (v == Some(IssuerMismatch) ==> !c.body.isCA && c.body.issuer != a.cert.body.subject)
      && (v == Some(BadEncoding) ==> c.body.issuer == a.cert.body.subject && d.untext(c.signature).None?)
      && (v == Some(BadSignature) ==> d.untext(c.signature).Some? && !CarriesSignature(d, a.pk, c))
      && (v == Some(Revoked) ==> CarriesSignature(d, a.pk, c) && c.body.serial in revoked)
      && v != Some(NilCertificate)
      && (v.None? <==>
            && c.body.notBefore <= now <= c.body.notAfter && !c.body.isCA && c.body.issuer == a.cert.body.subject
            && CarriesSignature(d, a.pk, c) && c.body.serial !in revoked)
  {}

  // ---------- Revocation ----------

  predicate IsSpace(c: char) {
    c in "\t\n\r \U{000B}\U{000C}\U{0085}\U{00A0}\U{1680}\U{2028}\U{2029}\U{202F}\U{205F}\U{3000}"
    || '\U{2000}' <= c <= '\U{200A}'
  }

  // The code points that count as white space
  lemma {:induction false} SpacesExactly(c: char)
    ensures IsSpace(c) <==>
      var n := c as int;
      || 0x09 <= n <= 0x0D || n == 0x20 || n == 0x85 || n == 0xA0 || n == 0x1680 || 0x2000 <= n <= 0x200A
      || n == 0x2028 || n == 0x2029 || n == 0x202F || n == 0x205F || n == 0x3000
  {}

  function TrimLeft(s: string): string {
    if s != "" && IsSpace(s[0]) then TrimLeft(s[1..]) else s
  }

  function TrimRight(s: string): string {
    if s != "" && IsSpace(s[|s| - 1]) then TrimRight(s[..|s| - 1]) else s
  }

  function TrimSpace(s: string): string {
    TrimRight(TrimLeft(s))
  }

  function Revoke(revoked: map<string, Time>, serial: string, now: Time): map<string, Time> {
    var t := TrimSpace(serial);
    if t == "" || t in revoked then revoked else revoked[t := now]
  }

  predicate Blank(s: string) {
    forall i :: 0 <= i < |s| ==> IsSpace(s[i])
  }

  // Exactly the serials of nothing but white space are refused.
  lemma {:induction false} BlankExactly(s: string)
    ensures TrimSpace(s) == "" <==> Blank(s)
  {
    LeftTrimmed(s);
    RightTrimmed(TrimLeft(s));
  }

  lemma {:induction false} LeftTrimmed(s: string)
    ensures Blank(s) <==> TrimLeft(s) == ""
    ensures TrimLeft(s) != "" ==> !IsSpace(TrimLeft(s)[0])
    decreases |s|
  {
    hide IsSpace;
    if s != "" && IsSpace(s[0]) {
      LeftTrimmed(s[1..]);
      assert Blank(s) <==> Blank(s[1..]) by {
        assert forall i :: 0 < i < |s| ==> s[i] == s[1..][i - 1];
      }
    }
  }

  lemma {:induction false} RightTrimmed(s: string)
    ensures Blank(s) <==> TrimRight(s) == ""
    decreases |s|
  {
    hide IsSpace;
    if s != "" && IsSpace(s[|s| - 1]) {
      RightTrimmed(s[..|s| - 1]);
    }
  }

  predicate Trimmed(t: string) {
    t != "" ==> !IsSpace(t[0]) && !IsSpace(t[|t| - 1])
  }

  // Trimming takes a blank piece off either end and leaves nothing more to take off.
  lemma {:induction false} TrimExactly(s: string) returns (i: nat, j: nat)
    ensures i <= j <= |s| && TrimSpace(s) == s[i..j]
    ensures Blank(s[..i]) && Blank(s[j..]) && Trimmed(s[i..j])
  {
    hide IsSpace;
    i := LeftCut(s);
    var t := s[i..];
    var k := RightCut(t);
    j := i + k;
    assert t[..k] == s[i..j] && t[k..] == s[j..];
    if k > 0 {
      assert t[..k][0] == t[0];
    }
  }

  lemma {:induction false} LeftCut(s: string) returns (i: nat)
    ensures i <= |s| && TrimLeft(s) == s[i..] && Blank(s[..i])
    ensures i < |s| ==> !IsSpace(s[i])
    decreases |s|
  {
    hide IsSpace;
    if s != "" && IsSpace(s[0]) {
      var k := LeftCut(s[1..]);
      i := k + 1;
      assert s[1..][..k] == s[1..i] && s[1..][k..] == s[i..];
      assert forall m :: 0 < m < i ==> s[..i][m] == s[1..][..k][m - 1];
    } else {
      i := 0;
    }
  }

  lemma {:induction false} RightCut(s: string) returns (j: nat)
    ensures j <= |s| && TrimRight(s) == s[..j] && Blank(s[j..])
    ensures j > 0 ==> !IsSpace(s[j - 1])
    decreases |s|
  {
    hide IsSpace;
    if s != "" && IsSpace(s[|s| - 1]) {
      var init := s[..|s| - 1];
      j := RightCut(init);
      assert init[..j] == s[..j];
      assert s[j..] == init[j..] + [s[|s| - 1]];
    } else {
      j := |s|;
    }
  }

  // A trimmed serial is what is left of it under any white space around it.
  lemma {:induction false} TrimPadded(a: string, t: string, b: string)
    requires Blank(a) && Blank(b) && t != "" && Trimmed(t)
    ensures TrimSpace(a + t + b) == t
  {
    hide IsSpace;
    TrimLeftPad(a, t + b);
    assert a + t + b == a + (t + b);
    assert (t + b)[0] == t[0];
    TrimRightPad(t, b);
  }

  lemma {:induction false} TrimLeftPad(a: string, s: string)
    requires Blank(a)
    ensures TrimLeft(a + s) == TrimLeft(s)
    decreases |a|
  {
    hide IsSpace;
    if a == "" {
      assert a + s == s;
    } else {
      assert (a + s)[1..] == a[1..] + s;
      TrimLeftPad(a[1..], s);
    }
  }

  lemma {:induction false} TrimRightPad(s: string, b: string)
    requires Blank(b)
    ensures TrimRight(s + b) == TrimRight(s)
    decreases |b|
  {
    hide IsSpace;
    if b == "" {
      assert s + b == s;
    } else {
      assert (s + b)[..|s + b| - 1] == s + b[..|b| - 1];
      TrimRightPad(s, b[..|b| - 1]);
    }
  }

  // Revoking a serial with any white space around it makes every certificate with that serial fail at all times,
  // enters the time of the first revocation, and leaves the other serials alone.
  lemma {:induction false} PaddedRevocation(
    d: Suite, auth: Authority, revoked: map<string, Time>, a: string, t: string, b: string, at: Time,
    c: Certificate, now: Time)
    requires Blank(a) && Blank(b) && t != "" && Trimmed(t)
    ensures
      var after := Revoke(revoked, a + t + b, at);
      && t in after && after[t] == (if t in revoked then revoked[t] else at)
      && (forall other :: other != t ==>
            (other in after <==> other in revoked) && (other in after ==> after[other] == revoked[other]))
      && (c.body.serial == t ==> Verdict(d, auth, after, Some(c), now).Some?)
  {
    TrimPadded(a, t, b);
    hide IsSpace, TrimSpace;
  }

  // A control character is listed like any serial.
  lemma {:induction false} ControlCharacterListed(revoked: map<string, Time>, now: Time)
    ensures "\U{0007}" in Revoke(revoked, "\U{0007}", now)
  {
    assert TrimSpace("\U{0007}") == "\U{0007}";
  }

  // ---------- Snapshots ----------

  // A snapshot as a value; revoked is None for a nil map.
  datatype Snapshot = Snapshot(
    version: int, certificate: Option<Certificate>, privKey: string, revoked: Option<map<string, Time>>)

  datatype RestoreError =
    | NoCertificate | NoPrivKey | BadPrivKeyText | BadPrivKey | BadPublicKeyText | BadPublicKey

  // Restore looks only at the certificate and the key text.
  function RestoreFault(d: Suite, certificate: Option<Certificate>, privKey: string): Option<RestoreError> {
    if certificate.None? then Some(NoCertificate)
    else if privKey == "" then Some(NoPrivKey)
    else if d.untext(privKey).None? then Some(BadPrivKeyText)
    else if d.parseSk(d.untext(privKey).value).None? then Some(BadPrivKey)
    else
      var pkText := d.untext(certificate.value.body.publicKey);
      if pkText.None? then Some(BadPublicKeyText)
      else if d.parsePk(pkText.value).None? then Some(BadPublicKey)
      else None
  }

  // Which error goes with which fault, in the order in which they are looked for
  lemma {:induction false} RestoreExplained(d: Suite, certificate: Option<Certificate>, privKey: string)
    ensures
      var f, sk := RestoreFault(d, certificate, privKey), d.untext(privKey);
      && (f == Some(NoCertificate) <==> certificate.None?)
      && (f == Some(NoPrivKey) <==> certificate.Some? && privKey == "")
      && (f == Some(BadPrivKeyText) <==> certificate.Some? && privKey != "" && sk.None?)
      && (f == Some(BadPrivKey) <==> certificate.Some? && privKey != "" && sk.Some? && d.parseSk(sk.value).None?)
      && (f == Some(BadPublicKeyText) ==> d.untext(certificate.value.body.publicKey).None?)
      && (f == Some(BadPublicKey) ==>
            var pk := d.untext(certificate.value.body.publicKey); pk.Some? && d.parsePk(pk.value).None?)
      && (f.None? ==>
            var pk := d.untext(certificate.value.body.publicKey);
            privKey != "" && sk.Some? && d.parseSk(sk.value).Some? && pk.Some? && d.parsePk(pk.value).Some?)
  {}

  function RestoredAuthority(d: Suite, certificate: Option<Certificate>, privKey: string): Authority
    requires RestoreFault(d, certificate, privKey).None?
  {
    Authority(
      d.parsePk(d.untext(certificate.value.body.publicKey).value).value,
      d.parseSk(d.untext(privKey).value).value,
      certificate.value)
  }

  function ExportedSnapshot(d: Suite, a: Authority, revoked: map<string, Time>): Snapshot {
    Snapshot(1, Some(a.cert), d.text(d.skBytes(a.sk)), Some(revoked))
  }

  // The public key held in memory is the one in the certificate.
  predicate Coherent(d: Suite, a: Authority) {
    var pkText := d.untext(a.cert.body.publicKey);
    pkText.Some? && d.parsePk(pkText.value) == Some(a.pk)
  }

  // A CA made with a new key carries that key in its certificate, under the signer's signature.
  lemma {:induction false} NewAuthorityGood(d: Suite, body: Body, sk: SecretKey, signer: SecretKey)
    requires body.publicKey == d.text(d.pkBytes(d.publicOf(sk)))
    ensures RoundTrips(d) ==> Coherent(d, NewAuthority(d, body, sk, signer))
    ensures RoundTrips(d) && SignaturesVerify(d) ==>
      CarriesSignature(d, d.publicOf(signer), NewAuthority(d, body, sk, signer).cert)
  {
    if RoundTrips(d) {
      var sig := d.sign(signer, d.encode(body));
      assert d.untext(body.publicKey) == Some(d.pkBytes(d.publicOf(sk)));
      assert d.parsePk(d.pkBytes(d.publicOf(sk))) == Some(d.publicOf(sk));
      assert d.untext(d.text(sig)) == Some(sig);
    }
  }

  lemma ExportRestores(d: Suite, a: Authority, revoked: map<string, Time>)
    requires RoundTrips(d) && Coherent(d, a)
    ensures var s := ExportedSnapshot(d, a, revoked);
            RestoreFault(d, s.certificate, s.privKey).None? && RestoredAuthority(d, s.certificate, s.privKey) == a
  {
    assert d.untext(d.text(d.skBytes(a.sk))) == Some(d.skBytes(a.sk));
    assert d.parseSk(d.skBytes(a.sk)) == Some(a.sk);
  }

  // ---------- The objects ----------

  // A Go map: shared by everything that holds a reference to it
  class TimeMap {
    var m: map<string, Time>

    constructor (m: map<string, Time>)
      ensures this.m == m
    {
      this.m := m;
    }
  }

  // The snapshot struct as it sits in memory: copying it copies the reference to the map.
  datatype SnapshotRef = SnapshotRef(
    version: int, certificate: Option<Certificate>, privKey: string, revoked: TimeMap?)
  {
    ghost function Cells(): set<object> {
      if revoked == null then {} else {revoked}
    }

    function Value(): Snapshot
      reads revoked
    {
      Snapshot(version, certificate, privKey, if revoked == null then None else Some(revoked.m))
    }
  }

  datatype CaError = EmptySubject | EmptyKeyType | EmptyKey | EmptySerial | Unrestorable(why: RestoreError)

  class CA {
    const id: Authority
    const revoked: TimeMap

    constructor (id: Authority, revoked: TimeMap)
      ensures this.id == id && this.revoked == revoked
    {
      this.id := id;
      this.revoked := revoked;
    }

    static method Init(
      d: Suite, subject: string, sk: SecretKey, serial: string, now: Time)
      returns (r: Result<CA, CaError>)
      ensures r.Err? ==> r.error == EmptySubject
      ensures r.Err? <==> subject == ""
      ensures r.Ok? ==> fresh(r.value) && fresh(r.value.revoked) && r.value.revoked.m == map[]
      ensures r.Ok? ==> r.value.id == NewAuthority(d, RootBody(d, subject, sk, serial, now), sk, sk)
      ensures r.Ok? ==> r.value.id.sk == sk && r.value.id.pk == d.publicOf(sk)
      ensures r.Ok? && RoundTrips(d) ==>
        Describes(d, r.value.id.cert.body, subject, subject, "ML-DSA-87", d.pkBytes(d.publicOf(sk)),
                  3650 * 86_400 * SECOND, serial, now, true)
      ensures r.Ok? && RoundTrips(d) ==> Coherent(d, r.value.id)
      ensures r.Ok? && RoundTrips(d) && SignaturesVerify(d) ==> CarriesSignature(d, r.value.id.pk, r.value.id.cert)
    {
      if subject == "" {
        return Err(EmptySubject);
      }
      NewAuthorityGood(d, RootBody(d, subject, sk, serial, now), sk, sk);
      if RoundTrips(d) {
        RootDescribed(d, subject, sk, serial, now);
      }
      var crl := new TimeMap(map[]);
      var ca := new CA(NewAuthority(d, RootBody(d, subject, sk, serial, now), sk, sk), crl);
      return Ok(ca);
    }

    method Issue(d: Suite, subject: string, keyType: string, key: Bytes, ttl: int, serial: string, now: Time)
      returns (r: Result<Certificate, CaError>)
      ensures r.Ok? <==> subject != "" && keyType != "" && key != []
      ensures r.Err? ==>
        r.error == if subject == "" then EmptySubject else if keyType == "" then EmptyKeyType else EmptyKey
      ensures r.Ok? ==> r.value == AttachSignature(d, LeafBody(d, id, subject, keyType, key, ttl, serial, now), id.sk)
      ensures r.Ok? && RoundTrips(d) ==>
        Describes(d, r.value.body, subject, id.cert.body.subject, keyType, key,
                  if ttl <= 0 then 365 * 86_400 * SECOND else ttl, serial, now, false)
      ensures r.Ok? && RoundTrips(d) && SignaturesVerify(d) && id.pk == d.publicOf(id.sk) ==>
        forall t, crl: map<string, Time> ::
          Verdict(d, id, crl, Some(r.value), t).None? <==>
            r.value.body.notBefore <= t <= r.value.body.notAfter && serial !in crl
    {
      if subject == "" {
        return Err(EmptySubject);
      }
      if keyType == "" {
        return Err(EmptyKeyType);
      }
      if |key| == 0 {
        return Err(EmptyKey);
      }
      if RoundTrips(d) {
        LeafDescribed(d, id, subject, keyType, key, ttl, serial, now);
      }
      return Ok(AttachSignature(d, LeafBody(d, id, subject, keyType, key, ttl, serial, now), id.sk));
    }

    method IssueIntermediate(d: Suite, subject: string, sk: SecretKey, ttl: int, serial: string, now: Time)
      returns (r: Result<CA, CaError>)
      ensures r.Err? <==> subject == ""
      ensures r.Ok? ==> fresh(r.value) && fresh(r.value.revoked) && r.value.revoked.m == map[]
      ensures r.Ok? ==> r.value.id == NewAuthority(d, SubBody(d, id, subject, sk, ttl, serial, now), sk, id.sk)
      ensures r.Ok? ==> r.value.id.sk == sk && r.value.id.pk == d.publicOf(sk)
      ensures r.Ok? && RoundTrips(d) ==>
        Describes(d, r.value.id.cert.body, subject, id.cert.body.subject, "ML-DSA-87", d.pkBytes(d.publicOf(sk)),
                  if ttl <= 0 then 3650 * 86_400 * SECOND else ttl, serial, now, true)
      ensures r.Ok? && RoundTrips(d) ==> Coherent(d, r.value.id)
      ensures r.Ok? && RoundTrips(d) && SignaturesVerify(d) && id.pk == d.publicOf(id.sk) ==>
        CarriesSignature(d, id.pk, r.value.id.cert)
    {
      if subject == "" {
        return Err(EmptySubject);
      }
      NewAuthorityGood(d, SubBody(d, id, subject, sk, ttl, serial, now), sk, id.sk);
      if RoundTrips(d) {
        SubDescribed(d, id, subject, sk, ttl, serial, now);
      }
      var crl := new TimeMap(map[]);
      var sub := new CA(NewAuthority(d, SubBody(d, id, subject, sk, ttl, serial, now), sk, id.sk), crl);
      return Ok(sub);
    }

    method RevokeSerial(serial: string, now: Time) returns (r: Option<CaError>)
      modifies revoked
      ensures r == if TrimSpace(serial) == "" then Some(EmptySerial) else None
      ensures r.Some? <==> Blank(serial)
      ensures revoked.m == Revoke(old(revoked.m), serial, now)
      ensures r.None? ==> forall d: Suite, c: Certificate, t: Time ::
                c.body.serial == TrimSpace(serial) ==> Verdict(d, id, revoked.m, Some(c), t).Some?
    {
      BlankExactly(serial);
      var trimmed := TrimSpace(serial);
      if trimmed == "" {
        return Some(EmptySerial);
      }
      if trimmed !in revoked.m {
        revoked.m := revoked.m[trimmed := now];
      }
      return None;
    }

    // The exported map is a copy.
    method Export(d: Suite) returns (s: SnapshotRef)
      ensures s.revoked != null && fresh(s.revoked)
      ensures s.Value() == ExportedSnapshot(d, id, revoked.m)
      ensures s.version == 1 && s.certificate == Some(id.cert) && s.revoked.m == revoked.m
    {
      var copy := new TimeMap(revoked.m);
      s := SnapshotRef(1, Some(id.cert), d.text(d.skBytes(id.sk)), copy);
    }

    // The restored CA shares the map of the snapshot, unless that is nil.
    static method Restore(d: Suite, s: SnapshotRef) returns (r: Result<CA, RestoreError>)
      ensures r.Err? <==> RestoreFault(d, s.certificate, s.privKey).Some?
      ensures r.Err? ==> Some(r.error) == RestoreFault(d, s.certificate, s.privKey)
      ensures r.Ok? ==> r.value.id == RestoredAuthority(d, s.certificate, s.privKey)
      ensures r.Ok? ==> fresh(r.value)
      ensures r.Ok? && s.revoked != null ==> r.value.revoked == s.revoked
      ensures r.Ok? && s.revoked == null ==> fresh(r.value.revoked) && r.value.revoked.m == map[]
    {
      var fault := RestoreFault(d, s.certificate, s.privKey);
      if fault.Some? {
        return Err(fault.value);
      }
      var crl := s.revoked;
      if crl == null {
        crl := new TimeMap(map[]);
      }
      var ca := new CA(RestoredAuthority(d, s.certificate, s.privKey), crl);
      return Ok(ca);
    }
  }
}
