// Certificate chains: what VerifyChain accepts, against every history of honest issuing.
module CertChain {
  import opened Common
  import opened CertAuthority

  // ---------- The verifier ----------

  datatype LinkError =
    | NotYetValid | Expired | SignerNotYetValid | SignerExpired | IssuerMismatch
    | BadKeyText | BadKey | BadSignatureText | BadSignature

  datatype ChainError =
    | NilCert | NilAnchor | AnchorNotSelfIssued | AnchorNotCA
    | NilMember(at: nat) | MemberNotCA(at: nat)
    | AnchorLink(why: LinkError) | Link(at: nat, why: LinkError)

  function SingleLink(d: Suite, issued: Certificate, signer: Certificate, now: Time): Option<LinkError> {
    if now < issued.body.notBefore then Some(LinkError.NotYetValid)
    else if now > issued.body.notAfter then Some(LinkError.Expired)
    else if now < signer.body.notBefore then Some(SignerNotYetValid)
    else if now > signer.body.notAfter then Some(SignerExpired)
    else if issued.body.issuer != signer.body.subject then Some(LinkError.IssuerMismatch)
    else
      var pkText := d.untext(signer.body.publicKey);
      if pkText.None? then Some(BadKeyText)
      else
        var pk := d.parsePk(pkText.value);
        if pk.None? then Some(BadKey)
        else
          var sig := d.untext(issued.signature);
          if sig.None? then Some(BadSignatureText)
          else if !d.verify(pk.value, d.encode(issued.body), sig.value) then Some(LinkError.BadSignature)
          else None
  }

  function MemberFault(chain: seq<Option<Certificate>>, i: nat): Option<ChainError>
    requires i <= |chain|
    decreases |chain| - i
  {
    if i == |chain| then None
    else if chain[i].None? then Some(NilMember(i))
    else if !chain[i].value.body.isCA then Some(MemberNotCA(i))
    else MemberFault(chain, i + 1)
  }

  // certs[i] must be signed by certs[i + 1]; the clock is read anew for each link.
  function LinkFault(d: Suite, certs: seq<Certificate>, clock: nat -> Time, i: nat): Option<ChainError>
    requires i < |certs|
    decreases |certs| - i
  {
    if i + 1 == |certs| then None
    else
      var fault := SingleLink(d, certs[i], certs[i + 1], clock(i + 1));
      if fault.Some? then Some(Link(i, fault.value)) else LinkFault(d, certs, clock, i + 1)
  }

  predicate AllPresent(chain: seq<Option<Certificate>>) {
    forall i :: 0 <= i < |chain| ==> chain[i].Some?
  }

  function Members(chain: seq<Option<Certificate>>): (s: seq<Certificate>)
    requires AllPresent(chain)
    ensures |s| == |chain|
  {
    seq(|chain|, i requires 0 <= i < |chain| => chain[i].value)
  }

  lemma {:induction false} MembersSound(chain: seq<Option<Certificate>>, i: nat)
    requires i <= |chain|
    ensures MemberFault(chain, i).None? <==>
              forall j :: i <= j < |chain| ==> chain[j].Some? && chain[j].value.body.isCA
    decreases |chain| - i
  {
    if i < |chain| {
      MembersSound(chain, i + 1);
    }
  }

  function ChainVerdict(d: Suite, cert: Option<Certificate>, chain: seq<Option<Certificate>>,
                        anchor: Option<Certificate>, clock: nat -> Time): Option<ChainError>
  {
    if cert.None? then Some(NilCert)
    else if anchor.None? then Some(NilAnchor)
    else if anchor.value.body.issuer != anchor.value.body.subject then Some(AnchorNotSelfIssued)
    else if !anchor.value.body.isCA then Some(AnchorNotCA)
    else
      var fault := MemberFault(chain, 0);
      if fault.Some? then fault
      else
        var self := SingleLink(d, anchor.value, anchor.value, clock(0));
        if self.Some? then Some(AnchorLink(self.value))
        else
          MembersSound(chain, 0);
          LinkFault(d, [cert.value] + Members(chain) + [anchor.value], clock, 0)
  }

  method VerifyChain(d: Suite, cert: Option<Certificate>, chain: seq<Option<Certificate>>,
                     anchor: Option<Certificate>, clock: nat -> Time) returns (r: Option<ChainError>)
    ensures r == ChainVerdict(d, cert, chain, anchor, clock)
  {
    if cert.None? {
      return Some(NilCert);
    }
    if anchor.None? {
      return Some(NilAnchor);
    }
    if anchor.value.body.issuer != anchor.value.body.subject {
      return Some(AnchorNotSelfIssued);
    }
    if !anchor.value.body.isCA {
      return Some(AnchorNotCA);
    }
    var members: seq<Certificate> := [];
    for i := 0 to |chain|
      invariant AllPresent(chain[..i]) && members == Members(chain[..i])
      invariant MemberFault(chain, 0) == MemberFault(chain, i)
    {
      if chain[i].None? {
        return Some(NilMember(i));
      }
      if !chain[i].value.body.isCA {
        return Some(MemberNotCA(i));
      }
      members := members + [chain[i].value];
    }
    assert chain[..|chain|] == chain;
    var certs := [cert.value] + members;
    var signers := members + [anchor.value];
    var fault := SingleLink(d, anchor.value, anchor.value, clock(0));
    if fault.Some? {
      return Some(AnchorLink(fault.value));
    }
    ghost var all := [cert.value] + members + [anchor.value];
    for i := 0 to |certs|
      invariant LinkFault(d, all, clock, 0) == LinkFault(d, all, clock, i)
    {
      assert certs[i] == all[i] && signers[i] == all[i + 1];
      var link := SingleLink(d, certs[i], signers[i], clock(i + 1));
      if link.Some? {
        return Some(Link(i, link.value));
      }
    }
    return None;
  }

  lemma {:induction false} LinksSound(d: Suite, certs: seq<Certificate>, clock: nat -> Time, i: nat)
    requires i < |certs|
    ensures LinkFault(d, certs, clock, i).None? <==>
              forall j :: i <= j < |certs| - 1 ==> SingleLink(d, certs[j], certs[j + 1], clock(j + 1)).None?
    decreases |certs| - i
  {
    if i + 1 < |certs| {
      LinksSound(d, certs, clock, i + 1);
    }
  }

  // The signer's certificate holds a key under which the issued certificate's signature verifies.
  predicate VerifiesUnder(d: Suite, issued: Certificate, signer: Certificate) {
    var t := d.untext(signer.body.publicKey);
    t.Some? && d.parsePk(t.value).Some? && CarriesSignature(d, d.parsePk(t.value).value, issued)
  }

  predicate InWindow(c: Certificate, now: Time) {
    c.body.notBefore <= now <= c.body.notAfter
  }

  // A link passes if and only if both certificates are in their windows, the names fit and the signature
  // verifies; the errors name the first of these that does not hold.
  lemma {:induction false} LinkExactly(d: Suite, issued: Certificate, signer: Certificate, now: Time)
    ensures
      var f := SingleLink(d, issued, signer, now);
      && (f.None? <==>
            && InWindow(issued, now) && InWindow(signer, now)
            && issued.body.issuer == signer.body.subject && VerifiesUnder(d, issued, signer))
      && (f == Some(LinkError.NotYetValid) ==> now < issued.body.notBefore)
      && (f == Some(LinkError.Expired) ==> now > issued.body.notAfter)
      && (f == Some(SignerNotYetValid) ==> InWindow(issued, now) && now < signer.body.notBefore)
      && (f == Some(SignerExpired) ==> InWindow(issued, now) && now > signer.body.notAfter)
      && (f == Some(LinkError.IssuerMismatch) ==>
            InWindow(signer, now) && issued.body.issuer != signer.body.subject)
      && (f == Some(BadKeyText) ==> d.untext(signer.body.publicKey).None?)
      && (f == Some(BadKey) ==>
            var t := d.untext(signer.body.publicKey); t.Some? && d.parsePk(t.value).None?)
      && (f == Some(BadSignatureText) ==> d.untext(issued.signature).None?)
      && (f == Some(LinkError.BadSignature) ==>
            d.untext(issued.signature).Some? && !VerifiesUnder(d, issued, signer))
  {}

  // The anchor is a self-issued CA certificate that its own key verifies.
  predicate GoodAnchor(d: Suite, anchor: Certificate, now: Time) {
    anchor.body.issuer == anchor.body.subject && anchor.body.isCA && InWindow(anchor, now)
    && VerifiesUnder(d, anchor, anchor)
  }

  // A chain is accepted if and only if the anchor is good, every member is present and a CA certificate, and
  // every link passes at its own reading of the clock. Of the end certificate itself nothing more is asked.
  lemma {:induction false} AcceptedChainExactly(
    d: Suite, cert: Certificate, chain: seq<Option<Certificate>>, anchor: Certificate, clock: nat -> Time)
    ensures ChainVerdict(d, Some(cert), chain, Some(anchor), clock).None? <==>
              && GoodAnchor(d, anchor, clock(0))
              && (forall i :: 0 <= i < |chain| ==> chain[i].Some? && chain[i].value.body.isCA)
              && (var certs := [cert] + Members(chain) + [anchor];
                  forall j :: 0 <= j < |certs| - 1 ==> SingleLink(d, certs[j], certs[j + 1], clock(j + 1)).None?)
  {
    MembersSound(chain, 0);
    LinkExactly(d, anchor, anchor, clock(0));
    hide SingleLink, VerifiesUnder, InWindow;
    if AllPresent(chain) {
      LinksSound(d, [cert] + Members(chain) + [anchor], clock, 0);
    }
  }

  // What a refusal says: the first thing that is wrong, and where
  lemma {:induction false} RefusalExplained(
    d: Suite, cert: Option<Certificate>, chain: seq<Option<Certificate>>, anchor: Option<Certificate>,
    clock: nat -> Time)
    ensures
      var v := ChainVerdict(d, cert, chain, anchor, clock);
      && (v == Some(NilCert) <==> cert.None?)
      && (v == Some(NilAnchor) <==> cert.Some? && anchor.None?)
      && (cert.Some? && anchor.Some? ==>
            var a := anchor.value;
            && (v == Some(AnchorNotSelfIssued) <==> a.body.issuer != a.body.subject)
            && (v == Some(AnchorNotCA) <==> a.body.issuer == a.body.subject && !a.body.isCA))
      && (v.Some? && v.value.NilMember? ==> v.value.at < |chain| && chain[v.value.at].None?)
      && (v.Some? && v.value.MemberNotCA? ==>
            v.value.at < |chain| && chain[v.value.at].Some? && !chain[v.value.at].value.body.isCA)
      && (v.Some? && (v.value.NilMember? || v.value.MemberNotCA?) ==>
            forall i :: 0 <= i < v.value.at ==> chain[i].Some? && chain[i].value.body.isCA)
      && (v.Some? && v.value.AnchorLink? ==>
            SingleLink(d, anchor.value, anchor.value, clock(0)) == Some(v.value.why))
      && (v.Some? && v.value.Link? ==>
            AllPresent(chain) && LinkRefused(d, [cert.value] + Members(chain) + [anchor.value], clock, v.value))
  {
    hide SingleLink;
    MembersSound(chain, 0);
    if MemberFault(chain, 0).Some? {
      FirstBadMember(chain, 0);
    }
    if cert.Some? && anchor.Some? && AllPresent(chain) {
      FirstBadLink(d, [cert.value] + Members(chain) + [anchor.value], clock, 0);
    }
  }

  // The link that the error names fails with that reason, and all earlier ones pass.
  predicate LinkRefused(d: Suite, certs: seq<Certificate>, clock: nat -> Time, e: ChainError) {
    && e.Link? && e.at + 1 < |certs|
    && SingleLink(d, certs[e.at], certs[e.at + 1], clock(e.at + 1)) == Some(e.why)
    && forall j :: 0 <= j < e.at ==> SingleLink(d, certs[j], certs[j + 1], clock(j + 1)).None?
  }

  lemma {:induction false} FirstBadMember(chain: seq<Option<Certificate>>, i: nat)
    requires i <= |chain| && MemberFault(chain, i).Some?
    requires forall k :: 0 <= k < i ==> chain[k].Some? && chain[k].value.body.isCA
    ensures
      var f := MemberFault(chain, i).value;
      && (f.NilMember? || f.MemberNotCA?) && i <= f.at < |chain|
      && (if f.NilMember? then chain[f.at].None? else chain[f.at].Some? && !chain[f.at].value.body.isCA)
      && forall k :: 0 <= k < f.at ==> chain[k].Some? && chain[k].value.body.isCA
    decreases |chain| - i
  {
    if chain[i].Some? && chain[i].value.body.isCA {
      FirstBadMember(chain, i + 1);
    }
  }

  lemma {:induction false} FirstBadLink(d: Suite, certs: seq<Certificate>, clock: nat -> Time, i: nat)
    requires i < |certs|
    requires forall j :: 0 <= j < i ==> SingleLink(d, certs[j], certs[j + 1], clock(j + 1)).None?
    ensures LinkFault(d, certs, clock, i).Some? ==> LinkRefused(d, certs, clock, LinkFault(d, certs, clock, i).value)
    decreases |certs| - i
  {
    hide SingleLink;
    if i + 1 < |certs| && SingleLink(d, certs[i], certs[i + 1], clock(i + 1)).None? {
      FirstBadLink(d, certs, clock, i + 1);
    }
  }

  // ---------- Histories of honest issuing ----------

  // Everything a CA key ever signs. signer is the key it signs with.
  datatype Event =
    | RootMade(signer: PublicKey, body: Body)
    | SubIssued(signer: PublicKey, key: PublicKey, body: Body)
    | LeafIssued(signer: PublicKey, body: Body)

  datatype World = World(authorities: seq<Authority>, log: seq<Event>)

  // Inputs of one call; an index that names no CA, or an argument that the call refuses, does nothing.
  datatype Step =
    | InitStep(subject: string, sk: SecretKey, serial: string, now: Time)
    | SubStep(issuer: nat, subject: string, sk: SecretKey, ttl: int, serial: string, now: Time)
    | LeafStep(issuer: nat, subject: string, keyType: string, key: Bytes, ttl: int, serial: string, now: Time)

  function Next(d: Suite, w: World, s: Step): World {
    match s
    case InitStep(subject, sk, serial, now) =>
      if subject == "" then w
      else
        var body := RootBody(d, subject, sk, serial, now);
        World(w.authorities + [NewAuthority(d, body, sk, sk)], w.log + [RootMade(d.publicOf(sk), body)])
    case SubStep(i, subject, sk, ttl, serial, now) =>
      if i >= |w.authorities| || subject == "" then w
      else
        var a := w.authorities[i];
        var body := SubBody(d, a, subject, sk, ttl, serial, now);
        World(w.authorities + [NewAuthority(d, body, sk, a.sk)], w.log + [SubIssued(a.pk, d.publicOf(sk), body)])
    case LeafStep(i, subject, keyType, key, ttl, serial, now) =>
      if i >= |w.authorities| || subject == "" || keyType == "" || key == [] then w
      else
        var a := w.authorities[i];
        w.(log := w.log + [LeafIssued(a.pk, LeafBody(d, a, subject, keyType, key, ttl, serial, now))])
  }

  function Run(d: Suite, steps: seq<Step>): World {
    if steps == [] then World([], []) else Next(d, Run(d, steps[..|steps| - 1]), steps[|steps| - 1])
  }

  ghost predicate IsCAKey(w: World, pk: PublicKey) {
    exists i :: 0 <= i < |w.authorities| && w.authorities[i].pk == pk
  }

  // A certificate in the log carries the key it was made for, and only CA certificates are delegations.
  predicate EventCoherent(d: Suite, e: Event) {
    match e
    case RootMade(signer, body) => body.isCA && body.publicKey == d.text(d.pkBytes(signer))
    case SubIssued(_, key, body) => body.isCA && body.publicKey == d.text(d.pkBytes(key))
    case LeafIssued(_, body) => !body.isCA
  }

  ghost predicate WorldInv(d: Suite, w: World) {
    && (forall e :: e in w.log ==> EventCoherent(d, e) && IsCAKey(w, e.signer))
    && (forall e :: e in w.log && e.SubIssued? ==> IsCAKey(w, e.key))
  }

  lemma {:induction false} RunInv(d: Suite, steps: seq<Step>)
    ensures WorldInv(d, Run(d, steps))
  {
    if steps != [] {
      RunInv(d, steps[..|steps| - 1]);
      NextInv(d, Run(d, steps[..|steps| - 1]), steps[|steps| - 1]);
    }
  }

  lemma {:induction false} NextInv(d: Suite, w: World, s: Step)
    requires WorldInv(d, w)
    ensures WorldInv(d, Next(d, w, s))
  {
    var v := Next(d, w, s);
    assert forall i :: 0 <= i < |w.authorities| ==> v.authorities[i] == w.authorities[i];
    forall pk | IsCAKey(w, pk)
      ensures IsCAKey(v, pk)
    {
      var i :| 0 <= i < |w.authorities| && w.authorities[i].pk == pk;
      assert v.authorities[i].pk == pk;
    }
    if |v.authorities| > |w.authorities| {
      var a := v.authorities[|w.authorities|];
      assert IsCAKey(v, a.pk);
    }
    match s
    case InitStep(_, _, _, _) =>
    case SubStep(i, _, _, _, _, _) =>
      if i < |w.authorities| {
        assert IsCAKey(w, w.authorities[i].pk);
      }
    case LeafStep(i, _, _, _, _, _, _) =>
      if i < |w.authorities| {
        assert IsCAKey(w, w.authorities[i].pk);
      }
  }

  // Everything that the calls sign is logged: the certificate of every CA, under the key that signed it.
  ghost predicate Logged(d: Suite, w: World, a: Authority) {
    exists e :: e in w.log && e.body == a.cert.body && CarriesSignature(d, e.signer, a.cert)
      && (e.SubIssued? ==> e.key == a.pk) && (e.RootMade? ==> e.signer == a.pk) && !e.LeafIssued?
  }

  predicate KeysPaired(d: Suite, w: World) {
    forall a :: a in w.authorities ==> a.pk == d.publicOf(a.sk)
  }

  lemma {:induction false} AuthoritiesLogged(d: Suite, steps: seq<Step>)
    requires RoundTrips(d) && SignaturesVerify(d)
    ensures KeysPaired(d, Run(d, steps))
    ensures forall a :: a in Run(d, steps).authorities ==> Logged(d, Run(d, steps), a)
  {
    if steps != [] {
      var w, v, last := Run(d, steps[..|steps| - 1]), Run(d, steps), steps[|steps| - 1];
      AuthoritiesLogged(d, steps[..|steps| - 1]);
      forall a | a in v.authorities
        ensures Logged(d, v, a) && a.pk == d.publicOf(a.sk)
      {
        if a in w.authorities {
          var e :| e in w.log && e.body == a.cert.body && CarriesSignature(d, e.signer, a.cert)
            && (e.SubIssued? ==> e.key == a.pk) && (e.RootMade? ==> e.signer == a.pk) && !e.LeafIssued?;
          assert e in v.log;
        } else {
          NewLogged(d, w, last, a);
        }
      }
    }
  }

  lemma {:induction false} NewLogged(d: Suite, w: World, s: Step, a: Authority)
    requires RoundTrips(d) && SignaturesVerify(d) && KeysPaired(d, w)
    requires a in Next(d, w, s).authorities && a !in w.authorities
    ensures Logged(d, Next(d, w, s), a) && a.pk == d.publicOf(a.sk)
  {
    var v := Next(d, w, s);
    var e := v.log[|w.log|];
    match s
    case InitStep(subject, sk, serial, now) =>
      NewAuthorityGood(d, e.body, sk, sk);
    case SubStep(i, subject, sk, ttl, serial, now) =>
      NewAuthorityGood(d, e.body, sk, w.authorities[i].sk);
      assert w.authorities[i] in w.authorities;
  }

  // Issuing a leaf logs it under the issuer's key, and nothing else changes.
  lemma {:induction false} LeafLogged(d: Suite, w: World, i: nat, subject: string, keyType: string, key: Bytes,
                                      ttl: int, serial: string, now: Time)
    requires RoundTrips(d) && i < |w.authorities| && subject != "" && keyType != "" && key != []
    ensures
      var v := Next(d, w, LeafStep(i, subject, keyType, key, ttl, serial, now));
      && v.authorities == w.authorities && |v.log| == |w.log| + 1 && v.log[..|w.log|] == w.log
      && v.log[|w.log|].LeafIssued? && v.log[|w.log|].signer == w.authorities[i].pk
      && Describes(d, v.log[|w.log|].body, subject, w.authorities[i].cert.body.subject, keyType, key,
                   if ttl <= 0 then 365 * 86_400 * SECOND else ttl, serial, now, false)
  {
    LeafDescribed(d, w.authorities[i], subject, keyType, key, ttl, serial, now);
  }

  // The signature on a presented certificate is no forgery under a CA key: such a key has signed only
  // what is in the log. Other keys may sign anything.
  ghost predicate NotForged(d: Suite, w: World, c: Certificate) {
    var sig := d.untext(c.signature);
    sig.Some? ==>
      forall pk :: IsCAKey(w, pk) && d.verify(pk, d.encode(c.body), sig.value) ==>
        exists e :: e in w.log && e.signer == pk && d.encode(e.body) == d.encode(c.body)
  }

  ghost predicate NothingForged(d: Suite, w: World, cert: Certificate, chain: seq<Option<Certificate>>) {
    NotForged(d, w, cert) && forall i :: 0 <= i < |chain| && chain[i].Some? ==> NotForged(d, w, chain[i].value)
  }

  // ---------- Soundness ----------

  // The key that a certificate carries, if it carries one
  function CarriedKey(d: Suite, c: Certificate): Option<PublicKey> {
    var t := d.untext(c.body.publicKey);
    if t.None? then None else d.parsePk(t.value)
  }

  // The holder of key `signer` certified `key` as a CA key, or `key` is a root that certified itself.
  ghost predicate Delegation(w: World, signer: PublicKey, key: PublicKey, body: Body) {
    || SubIssued(signer, key, body) in w.log
    || (signer == key && RootMade(signer, body) in w.log)
  }

  ghost predicate Issued(w: World, signer: PublicKey, body: Body) {
    exists e :: e in w.log && e.signer == signer && e.body == body
  }

  // One accepted link under a CA key
  lemma {:induction false} LinkIsIssued(d: Suite, w: World, issued: Certificate, signer: Certificate, now: Time)
    requires EncodingInjective(d) && NotForged(d, w, issued)
    requires SingleLink(d, issued, signer, now).None?
    requires CarriedKey(d, signer).Some? && IsCAKey(w, CarriedKey(d, signer).value)
    ensures Issued(w, CarriedKey(d, signer).value, issued.body)
  {
    var pk, sig := CarriedKey(d, signer).value, d.untext(issued.signature).value;
    assert d.verify(pk, d.encode(issued.body), sig);
    var e :| e in w.log && e.signer == pk && d.encode(e.body) == d.encode(issued.body);
    assert e.body == issued.body;
  }

  lemma {:induction false} IssuedCAIsDelegated(d: Suite, w: World, signer: PublicKey, c: Certificate)
    requires RoundTrips(d) && WorldInv(d, w) && Issued(w, signer, c.body) && c.body.isCA
    ensures CarriedKey(d, c).Some? && IsCAKey(w, CarriedKey(d, c).value)
    ensures Delegation(w, signer, CarriedKey(d, c).value, c.body)
  {
    var e :| e in w.log && e.signer == signer && e.body == c.body;
    assert EventCoherent(d, e);
    var key := if e.SubIssued? then e.key else e.signer;
    assert d.untext(d.text(d.pkBytes(key))) == Some(d.pkBytes(key));
    assert d.parsePk(d.pkBytes(key)) == Some(key);
  }

  // Walking down from the anchor, every member carries a delegated CA key.
  lemma {:induction false} MembersDelegated(d: Suite, w: World, certs: seq<Certificate>, root: PublicKey,
                                            clock: nat -> Time, i: nat)
    requires RoundTrips(d) && EncodingInjective(d) && WorldInv(d, w)
    requires forall j :: 0 <= j < |certs| - 1 ==> NotForged(d, w, certs[j])
    requires 1 <= i < |certs| && RootMade(root, certs[|certs| - 1].body) in w.log
    requires forall j :: 0 <= j < |certs| - 1 ==> SingleLink(d, certs[j], certs[j + 1], clock(j + 1)).None?
    requires forall j :: 1 <= j < |certs| ==> certs[j].body.isCA
    ensures forall j :: i <= j < |certs| ==> CarriedKey(d, certs[j]).Some? && IsCAKey(w, CarriedKey(d, certs[j]).value)
    ensures forall j :: i <= j < |certs| - 1 ==>
              Delegation(w, CarriedKey(d, certs[j + 1]).value, CarriedKey(d, certs[j]).value, certs[j].body)
    ensures CarriedKey(d, certs[|certs| - 1]) == Some(root)
    decreases |certs| - i
  {
    hide SingleLink, RoundTrips, EncodingInjective, NotForged, WorldInv, Delegation, CarriedKey, IsCAKey, Issued;
    if i == |certs| - 1 {
      RootCarriesItsKey(d, w, root, certs[i]);
    } else {
      MembersDelegated(d, w, certs, root, clock, i + 1);
      LinkIsIssued(d, w, certs[i], certs[i + 1], clock(i + 1));
      IssuedCAIsDelegated(d, w, CarriedKey(d, certs[i + 1]).value, certs[i]);
    }
  }

  lemma {:induction false} RootCarriesItsKey(d: Suite, w: World, root: PublicKey, c: Certificate)
    requires RoundTrips(d) && WorldInv(d, w) && RootMade(root, c.body) in w.log
    ensures CarriedKey(d, c) == Some(root) && IsCAKey(w, root)
  {
    var e := RootMade(root, c.body);
    assert EventCoherent(d, e) && IsCAKey(w, e.signer);
    assert d.untext(d.text(d.pkBytes(root))) == Some(d.pkBytes(root));
    assert d.parsePk(d.pkBytes(root)) == Some(root);
  }

  // An accepted certificate was issued by the CA whose key its direct signer carries, and from that
  // key a delegation leads link by link to the root.
  ghost predicate IssuedUnder(d: Suite, w: World, certs: seq<Certificate>, root: PublicKey)
    requires |certs| >= 2
  {
    && (forall j :: 1 <= j < |certs| ==> CarriedKey(d, certs[j]).Some?)
    && CarriedKey(d, certs[|certs| - 1]) == Some(root)
    && (forall j :: 1 <= j < |certs| - 1 ==>
          Delegation(w, CarriedKey(d, certs[j + 1]).value, CarriedKey(d, certs[j]).value, certs[j].body))
    && Issued(w, CarriedKey(d, certs[1]).value, certs[0].body)
  }

  lemma {:induction false} ChainSound(d: Suite, steps: seq<Step>, cert: Certificate, chain: seq<Option<Certificate>>,
                   anchor: Certificate, root: PublicKey, clock: nat -> Time)
    requires RoundTrips(d) && EncodingInjective(d) && NothingForged(d, Run(d, steps), cert, chain)
    requires RootMade(root, anchor.body) in Run(d, steps).log
    requires ChainVerdict(d, Some(cert), chain, Some(anchor), clock).None?
    ensures AllPresent(chain) && IssuedUnder(d, Run(d, steps), [cert] + Members(chain) + [anchor], root)
  {
    hide SingleLink, LinkFault, MemberFault, Run, RoundTrips, EncodingInjective, NotForged, WorldInv;
    MembersSound(chain, 0);
    var certs := [cert] + Members(chain) + [anchor];
    LinksSound(d, certs, clock, 0);
    RunInv(d, steps);
    forall j | 1 <= j < |certs|
      ensures certs[j].body.isCA && (j < |certs| - 1 ==> NotForged(d, Run(d, steps), certs[j]))
    {
      if j < |certs| - 1 {
        assert certs[j] == chain[j - 1].value;
      }
    }
    AcceptedIsIssuedUnder(d, Run(d, steps), certs, root, clock);
  }

  lemma {:induction false} AcceptedIsIssuedUnder(
    d: Suite, w: World, certs: seq<Certificate>, root: PublicKey, clock: nat -> Time)
    requires RoundTrips(d) && EncodingInjective(d) && WorldInv(d, w)
    requires forall j :: 0 <= j < |certs| - 1 ==> NotForged(d, w, certs[j])
    requires |certs| >= 2 && RootMade(root, certs[|certs| - 1].body) in w.log
    requires forall j :: 0 <= j < |certs| - 1 ==> SingleLink(d, certs[j], certs[j + 1], clock(j + 1)).None?
    requires forall j :: 1 <= j < |certs| ==> certs[j].body.isCA
    ensures IssuedUnder(d, w, certs, root)
  {
    hide SingleLink, RoundTrips, EncodingInjective, NotForged, WorldInv, Delegation, CarriedKey;
    MembersDelegated(d, w, certs, root, clock, 1);
    LinkIsIssued(d, w, certs[0], certs[1], clock(1));
  }

  // The names of the j-th link fit, and both of its certificates were in their windows when it was looked at.
  predicate LinkAlive(certs: seq<Certificate>, clock: nat -> Time, j: nat)
    requires j + 1 < |certs|
  {
    && certs[j].body.issuer == certs[j + 1].body.subject
    && InWindow(certs[j], clock(j + 1)) && InWindow(certs[j + 1], clock(j + 1))
  }

  // Acceptance also means that every link was alive and the anchor is a live self-issued CA certificate.
  lemma {:induction false} AcceptedLinksAlive(d: Suite, cert: Certificate, chain: seq<Option<Certificate>>,
                          anchor: Certificate, clock: nat -> Time)
    requires ChainVerdict(d, Some(cert), chain, Some(anchor), clock).None?
    ensures anchor.body.isCA && anchor.body.issuer == anchor.body.subject && InWindow(anchor, clock(0))
    ensures AllPresent(chain)
    ensures forall j :: 0 <= j < |chain| + 1 ==> LinkAlive([cert] + Members(chain) + [anchor], clock, j)
  {
    hide SingleLink, LinkFault, MemberFault;
    MembersSound(chain, 0);
    var certs := [cert] + Members(chain) + [anchor];
    LinksSound(d, certs, clock, 0);
    LinkInWindows(d, anchor, anchor, clock(0));
    forall j | 0 <= j < |chain| + 1
      ensures LinkAlive(certs, clock, j)
    {
      LinkInWindows(d, certs[j], certs[j + 1], clock(j + 1));
    }
  }

  lemma {:induction false} LinkInWindows(d: Suite, issued: Certificate, signer: Certificate, now: Time)
    requires SingleLink(d, issued, signer, now).None?
    ensures issued.body.issuer == signer.body.subject && InWindow(issued, now) && InWindow(signer, now)
  {}

  // CA.Verify accepts, at any time and whatever is presented, exactly the unforged leaf certificates that this
  // CA's key issued under this CA's name, inside their window and not revoked.
  lemma {:induction false} VerifyExactly(d: Suite, steps: seq<Step>, a: Authority, revoked: map<string, Time>,
                          cert: Certificate, now: Time)
    requires EncodingInjective(d) && NotForged(d, Run(d, steps), cert) && a in Run(d, steps).authorities
    ensures Verdict(d, a, revoked, Some(cert), now).None? <==>
              && LeafIssued(a.pk, cert.body) in Run(d, steps).log && CarriesSignature(d, a.pk, cert)
              && cert.body.issuer == a.cert.body.subject
              && InWindow(cert, now) && cert.body.serial !in revoked
  {
    RunInv(d, steps);
    var w := Run(d, steps);
    hide Run;
    var i :| 0 <= i < |w.authorities| && w.authorities[i] == a;
    assert IsCAKey(w, a.pk);
    if CarriesSignature(d, a.pk, cert) {
      var e :| e in w.log && e.signer == a.pk && d.encode(e.body) == d.encode(cert.body);
      assert EventCoherent(d, e);
    }
    if LeafIssued(a.pk, cert.body) in w.log {
      assert EventCoherent(d, LeafIssued(a.pk, cert.body));
    }
  }

  // Nothing outside the log is ever accepted, however the chain is put together and whatever
  // keys, certified leaf keys included, signed it.
  lemma {:induction false} OutsidersRejected(
    d: Suite, steps: seq<Step>, cert: Certificate, chain: seq<Option<Certificate>>,
    anchor: Certificate, root: PublicKey, clock: nat -> Time)
    requires RoundTrips(d) && EncodingInjective(d) && NothingForged(d, Run(d, steps), cert, chain)
    requires RootMade(root, anchor.body) in Run(d, steps).log
    requires forall e :: e in Run(d, steps).log ==> e.body != cert.body
    ensures ChainVerdict(d, Some(cert), chain, Some(anchor), clock).Some?
  {
    if ChainVerdict(d, Some(cert), chain, Some(anchor), clock).None? {
      ChainSound(d, steps, cert, chain, anchor, root, clock);
    }
  }

  // ---------- Completeness ----------

  datatype SubSpec = SubSpec(subject: string, sk: SecretKey, ttl: int, serial: string, now: Time)

  function SubCA(d: Suite, parent: Authority, s: SubSpec): Authority {
    NewAuthority(d, SubBody(d, parent, s.subject, s.sk, s.ttl, s.serial, s.now), s.sk, parent.sk)
  }

  // The CA at the end of a line of nested IssueIntermediate calls, the last call first
  function LastCA(d: Suite, root: Authority, line: seq<SubSpec>): Authority
    decreases |line|
  {
    if line == [] then root else SubCA(d, LastCA(d, root, line[1..]), line[0])
  }

  // The certificates collected along the line, direct issuer first
  function Collected(d: Suite, root: Authority, line: seq<SubSpec>): (certs: seq<Certificate>)
    ensures |certs| == |line|
    decreases |line|
  {
    if line == [] then [] else [LastCA(d, root, line).cert] + Collected(d, root, line[1..])
  }

  // A CA whose certificate names its own key and says that it is a CA
  predicate Genuine(d: Suite, a: Authority) {
    a.pk == d.publicOf(a.sk) && a.cert.body.isCA && a.cert.body.publicKey == d.text(d.pkBytes(a.pk))
  }

  lemma {:induction false} GenuineLink(d: Suite, issuer: Authority, body: Body, now: Time)
    requires RoundTrips(d) && SignaturesVerify(d) && Genuine(d, issuer)
    requires body.issuer == issuer.cert.body.subject
    requires InWindow(AttachSignature(d, body, issuer.sk), now) && InWindow(issuer.cert, now)
    ensures SingleLink(d, AttachSignature(d, body, issuer.sk), issuer.cert, now).None?
  {
    var sig := d.sign(issuer.sk, d.encode(body));
    assert d.untext(d.text(d.pkBytes(issuer.pk))) == Some(d.pkBytes(issuer.pk));
    assert d.parsePk(d.pkBytes(issuer.pk)) == Some(issuer.pk);
    assert d.untext(d.text(sig)) == Some(sig);
    assert d.verify(d.publicOf(issuer.sk), d.encode(body), sig);
  }

  predicate LinksHold(d: Suite, certs: seq<Certificate>, clock: nat -> Time, offset: nat) {
    forall i :: 0 <= i < |certs| - 1 ==> SingleLink(d, certs[i], certs[i + 1], clock(i + offset)).None?
  }

  ghost predicate AlwaysInWindow(c: Certificate, clock: nat -> Time) {
    forall t: nat :: InWindow(c, clock(t))
  }

  lemma {:induction false} LineLinks(d: Suite, root: Authority, line: seq<SubSpec>, clock: nat -> Time, offset: nat)
    requires RoundTrips(d) && SignaturesVerify(d) && Genuine(d, root) && AlwaysInWindow(root.cert, clock)
    requires forall c :: c in Collected(d, root, line) ==> AlwaysInWindow(c, clock)
    ensures Genuine(d, LastCA(d, root, line)) && AlwaysInWindow(LastCA(d, root, line).cert, clock)
    ensures forall c :: c in Collected(d, root, line) ==> c.body.isCA
    ensures LinksHold(d, Collected(d, root, line) + [root.cert], clock, offset)
    ensures (Collected(d, root, line) + [root.cert])[0] == LastCA(d, root, line).cert
    decreases |line|
  {
    hide SingleLink;
    if line != [] {
      var s, rest := line[0], line[1..];
      var parent, certs := LastCA(d, root, rest), Collected(d, root, rest) + [root.cert];
      LineLinks(d, root, rest, clock, offset + 1);
      var all := Collected(d, root, line) + [root.cert];
      var sub := LastCA(d, root, line);
      assert all == [sub.cert] + certs;
      assert sub.cert in Collected(d, root, line);
      var body := SubBody(d, parent, s.subject, s.sk, s.ttl, s.serial, s.now);
      assert sub.cert == AttachSignature(d, body, parent.sk);
      assert InWindow(sub.cert, clock(offset)) && InWindow(parent.cert, clock(offset));
      GenuineLink(d, parent, body, clock(offset));
      LinksPrepend(d, sub.cert, certs, clock, offset);
    }
  }

  lemma {:induction false} LinksPrepend(
    d: Suite, first: Certificate, certs: seq<Certificate>, clock: nat -> Time, offset: nat)
    requires certs != [] && SingleLink(d, first, certs[0], clock(offset)).None?
    requires LinksHold(d, certs, clock, offset + 1)
    ensures LinksHold(d, [first] + certs, clock, offset)
  {
    hide SingleLink;
    var all := [first] + certs;
    forall i | 0 <= i < |all| - 1
      ensures SingleLink(d, all[i], all[i + 1], clock(i + offset)).None?
    {
      if i > 0 {
        assert all[i] == certs[i - 1] && all[i + 1] == certs[i] && (i - 1) + (offset + 1) == i + offset;
      }
    }
  }

  function Present(certs: seq<Certificate>): (chain: seq<Option<Certificate>>)
    ensures |chain| == |certs| && AllPresent(chain) && Members(chain) == certs
  {
    seq(|certs|, i requires 0 <= i < |certs| => Some(certs[i]))
  }

  function RootCA(d: Suite, subject: string, sk: SecretKey, serial: string, now: Time): Authority {
    NewAuthority(d, RootBody(d, subject, sk, serial, now), sk, sk)
  }

  // However deep the hierarchy, whatever its last CA signs under its own name verifies with the collected chain
  // whenever the clock stays inside every validity window.
  lemma {:induction false} SignedByLastVerifies(
    d: Suite, root: Authority, subject: string, sk: SecretKey, serial: string, made: Time,
    line: seq<SubSpec>, body: Body, clock: nat -> Time)
    requires RoundTrips(d) && SignaturesVerify(d)
    requires root == RootCA(d, subject, sk, serial, made) && body.issuer == LastCA(d, root, line).cert.body.subject
    requires AlwaysInWindow(root.cert, clock)
    requires AlwaysInWindow(AttachSignature(d, body, LastCA(d, root, line).sk), clock)
    requires forall c :: c in Collected(d, root, line) ==> AlwaysInWindow(c, clock)
    ensures ChainVerdict(d, Some(AttachSignature(d, body, LastCA(d, root, line).sk)),
                         Present(Collected(d, root, line)), Some(root.cert), clock).None?
  {
    hide SingleLink, LinkFault, MemberFault;
    var last, chain := LastCA(d, root, line), Collected(d, root, line);
    var cert := AttachSignature(d, body, last.sk);
    LineLinks(d, root, line, clock, 2);
    assert InWindow(root.cert, clock(0)) && InWindow(last.cert, clock(1)) && InWindow(cert, clock(1));
    GenuineLink(d, root, root.cert.body, clock(0));
    GenuineLink(d, last, body, clock(1));
    LinksPrepend(d, cert, chain + [root.cert], clock, 1);
    assert [cert] + chain + [root.cert] == [cert] + (chain + [root.cert]);
    MembersSound(Present(chain), 0);
    forall j | 0 <= j < |chain|
      ensures Present(chain)[j].value.body.isCA
    {
      assert Members(Present(chain))[j] == chain[j];
    }
    LinksSound(d, [cert] + chain + [root.cert], clock, 0);
  }

  // A leaf issued at the end of the line verifies.
  lemma {:induction false} ChainComplete(
    d: Suite, root: Authority, subject: string, sk: SecretKey, serial: string, made: Time,
    line: seq<SubSpec>, cert: Certificate, leaf: string, keyType: string, key: Bytes, ttl: int,
    leafSerial: string, issued: Time, clock: nat -> Time)
    requires RoundTrips(d) && SignaturesVerify(d)
    requires root == RootCA(d, subject, sk, serial, made)
    requires var last := LastCA(d, root, line);
             cert == AttachSignature(d, LeafBody(d, last, leaf, keyType, key, ttl, leafSerial, issued), last.sk)
    requires AlwaysInWindow(root.cert, clock) && AlwaysInWindow(cert, clock)
    requires forall c :: c in Collected(d, root, line) ==> AlwaysInWindow(c, clock)
    ensures ChainVerdict(d, Some(cert), Present(Collected(d, root, line)), Some(root.cert), clock).None?
  {
    hide ChainVerdict;
    var body := LeafBody(d, LastCA(d, root, line), leaf, keyType, key, ttl, leafSerial, issued);
    SignedByLastVerifies(d, root, subject, sk, serial, made, line, body, clock);
  }

  // So does the certificate of an intermediate, with the chain of the CA that issued it.
  lemma {:induction false} IntermediateVerifies(
    d: Suite, root: Authority, subject: string, sk: SecretKey, serial: string, made: Time,
    line: seq<SubSpec>, sub: SubSpec, clock: nat -> Time)
    requires RoundTrips(d) && SignaturesVerify(d)
    requires root == RootCA(d, subject, sk, serial, made)
    requires AlwaysInWindow(root.cert, clock)
    requires AlwaysInWindow(SubCA(d, LastCA(d, root, line), sub).cert, clock)
    requires forall c :: c in Collected(d, root, line) ==> AlwaysInWindow(c, clock)
    ensures ChainVerdict(d, Some(SubCA(d, LastCA(d, root, line), sub).cert),
                         Present(Collected(d, root, line)), Some(root.cert), clock).None?
  {
    hide ChainVerdict;
    var body := SubBody(d, LastCA(d, root, line), sub.subject, sub.sk, sub.ttl, sub.serial, sub.now);
    SignedByLastVerifies(d, root, subject, sk, serial, made, line, body, clock);
  }
}
