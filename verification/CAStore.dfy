// The encrypted file that a hierarchy of certificate authorities is saved to and loaded from.
module CAStore {
  import opened Common
  import opened CertAuthority
  import CertChain

  // The JSON payload; root is None when there is no root.
  datatype Persisted = Persisted(version: int, root: Option<Snapshot>, intermediates: map<string, Snapshot>)

  // Argon2id, AES-256-GCM (key, nonce, text), JSON, which refuses some times, and what the CAs use
  datatype Crypto = Crypto(
    ca: Suite,
    derive: (string, Bytes) -> Bytes,
    seal: (Bytes, Bytes, Bytes) -> Bytes, open: (Bytes, Bytes, Bytes) -> Option<Bytes>,
    marshal: Persisted -> Option<Bytes>, unmarshal: Bytes -> Option<Persisted>)

  const TAG: nat := 16

  // Under one key and nonce a ciphertext opens exactly when it is the sealing of what it opens to.
  ghost predicate Authentic(c: Crypto) {
    && (forall k, n, p :: |c.seal(k, n, p)| == |p| + TAG && c.open(k, n, c.seal(k, n, p)) == Some(p))
    && (forall k, n, t :: c.open(k, n, t).Some? ==> t == c.seal(k, n, c.open(k, n, t).value))
  }

  ghost predicate JsonRoundTrips(c: Crypto) {
    forall p :: c.marshal(p).Some? ==> c.unmarshal(c.marshal(p).value) == Some(p)
  }

  datatype StoreError =
    | EmptyPassword | NoFile | TooShort | BadMagic | DecryptionFailed | MarshalFailed | BadJson | WriteFailed
    | BadRoot(why: RestoreError) | BadIntermediate(serial: string, why: RestoreError)

  // ---------- The frame ----------

  const MAGIC: Bytes := [0x51, 0x53, 0x43, 0x31]
  const SALT_LEN: nat := 32
  const NONCE_LEN: nat := 12

  function Encrypted(c: Crypto, plaintext: Bytes, password: string, salt: Bytes, nonce: Bytes): Bytes {
    MAGIC + salt + nonce + c.seal(c.derive(password, salt), nonce, plaintext)
  }

  method Copy(out: array<int>, at: nat, src: Bytes)
    requires at + |src| <= out.Length
    modifies out
    ensures out[..] == old(out[..at]) + src + old(out[at + |src|..])
  {
    for i := 0 to |src|
      invariant forall j :: 0 <= j < out.Length ==>
        out[j] == if at <= j < at + i then src[j - at] else old(out[j])
    {
      out[at + i] := src[i];
    }
  }

  method Encrypt(c: Crypto, plaintext: Bytes, password: string, salt: Bytes, nonce: Bytes) returns (out: array<int>)
    requires |salt| == SALT_LEN && |nonce| == NONCE_LEN
    ensures fresh(out) && out[..] == Encrypted(c, plaintext, password, salt, nonce)
  {
    var ct := c.seal(c.derive(password, salt), nonce, plaintext);
    out := new int[4 + SALT_LEN + NONCE_LEN + |ct|];
    Copy(out, 0, MAGIC);
    assert out[..4] == MAGIC;
    Copy(out, 4, salt);
    assert out[..36] == MAGIC + salt;
    Copy(out, 4 + SALT_LEN, nonce);
    assert out[..48] == MAGIC + salt + nonce;
    Copy(out, 4 + SALT_LEN + NONCE_LEN, ct);
    assert out[..] == MAGIC + salt + nonce + ct;
  }

  function Decrypt(c: Crypto, data: Bytes, password: string): Result<Bytes, StoreError> {
    if |data| < 4 + SALT_LEN + NONCE_LEN + 16 then Err(TooShort)
    else if data[0..4] != MAGIC then Err(BadMagic)
    else
      var salt := data[4..4 + SALT_LEN];
      var nonce := data[4 + SALT_LEN..4 + SALT_LEN + NONCE_LEN];
      var ct := data[4 + SALT_LEN + NONCE_LEN..];
      var pt := c.open(c.derive(password, salt), nonce, ct);
      if pt.None? then Err(DecryptionFailed) else Ok(pt.value)
  }

  ghost predicate IsEncryption(c: Crypto, data: Bytes, password: string, plaintext: Bytes) {
    exists salt: Bytes, nonce: Bytes ::
      |salt| == SALT_LEN && |nonce| == NONCE_LEN && data == Encrypted(c, plaintext, password, salt, nonce)
  }

  lemma {:induction false} DecryptEncrypted(c: Crypto, plaintext: Bytes, password: string, salt: Bytes, nonce: Bytes)
    requires Authentic(c) && |salt| == SALT_LEN && |nonce| == NONCE_LEN
    ensures Decrypt(c, Encrypted(c, plaintext, password, salt, nonce), password) == Ok(plaintext)
  {
    var data := Encrypted(c, plaintext, password, salt, nonce);
    var ct := c.seal(c.derive(password, salt), nonce, plaintext);
    assert |ct| == |plaintext| + TAG;
    assert data[0..4] == MAGIC;
    assert data[4..36] == salt;
    assert data[36..48] == nonce;
    assert data[48..] == ct;
  }

  // The layout of the file, and what opens its last part
  lemma {:induction false} FrameLayout(c: Crypto, plaintext: Bytes, password: string, salt: Bytes, nonce: Bytes)
    requires Authentic(c) && |salt| == 32 && |nonce| == 12
    ensures
      var data := Encrypted(c, plaintext, password, salt, nonce);
      && |data| == 48 + |plaintext| + 16
      && (forall i :: 0 <= i < 4 ==> data[i] == "QSC1"[i] as int)
      && data[4..36] == salt && data[36..48] == nonce
      && c.open(c.derive(password, salt), nonce, data[48..]) == Some(plaintext)
  {
    var data := Encrypted(c, plaintext, password, salt, nonce);
    var ct := c.seal(c.derive(password, salt), nonce, plaintext);
    assert |ct| == |plaintext| + TAG;
    assert data[48..] == ct;
  }

  // Which error goes with which fault
  lemma {:induction false} DecryptExplained(c: Crypto, data: Bytes, password: string)
    ensures
      var r := Decrypt(c, data, password);
      && (r == Err(TooShort) <==> |data| < 64)
      && (r == Err(BadMagic) <==> |data| >= 64 && exists i :: 0 <= i < 4 && data[i] != "QSC1"[i] as int)
      && (r.Err? && |data| >= 64 && r != Err(BadMagic) ==>
            r.error == DecryptionFailed && c.open(c.derive(password, data[4..36]), data[36..48], data[48..]).None?)
  {
    if |data| >= 64 && forall i :: 0 <= i < 4 ==> data[i] == "QSC1"[i] as int {
      assert data[0..4] == MAGIC;
    } else if |data| >= 64 {
      var i :| 0 <= i < 4 && data[i] != "QSC1"[i] as int;
      assert data[0..4][i] == data[i];
    }
  }

  // Decryption accepts the encryptions under the password, whatever the salt and the nonce, and nothing else.
  lemma {:induction false} DecryptExactly(c: Crypto, data: Bytes, password: string, plaintext: Bytes)
    requires Authentic(c)
    ensures Decrypt(c, data, password) == Ok(plaintext) <==> IsEncryption(c, data, password, plaintext)
  {
    if Decrypt(c, data, password) == Ok(plaintext) {
      var salt, nonce, ct := data[4..36], data[36..48], data[48..];
      assert ct == c.seal(c.derive(password, salt), nonce, plaintext);
      assert data == data[0..4] + salt + nonce + ct;
    }
    if IsEncryption(c, data, password, plaintext) {
      var salt: Bytes, nonce: Bytes :|
        |salt| == SALT_LEN && |nonce| == NONCE_LEN && data == Encrypted(c, plaintext, password, salt, nonce);
      DecryptEncrypted(c, plaintext, password, salt, nonce);
    }
  }

  // ---------- The payload ----------

  // What a CA holds, and a whole hierarchy of them by serial
  datatype Holding = Holding(id: Authority, revoked: map<string, Time>)

  datatype Hierarchy = Hierarchy(root: Option<Holding>, intermediates: map<string, Holding>)

  function Exported(c: Crypto, h: Hierarchy): Persisted {
    Persisted(
      1,
      if h.root.None? then None else Some(ExportedSnapshot(c.ca, h.root.value.id, h.root.value.revoked)),
      map s | s in h.intermediates :: ExportedSnapshot(c.ca, h.intermediates[s].id, h.intermediates[s].revoked))
  }

  lemma {:induction false} IsExported(c: Crypto, h: Hierarchy, p: Persisted)
    requires p.version == 1 && p.root.Some? == h.root.Some? && p.intermediates.Keys == h.intermediates.Keys
    requires p.root.Some? ==> p.root.value == ExportedSnapshot(c.ca, h.root.value.id, h.root.value.revoked)
    requires forall s :: s in p.intermediates ==>
      p.intermediates[s] == ExportedSnapshot(c.ca, h.intermediates[s].id, h.intermediates[s].revoked)
    ensures p == Exported(c, h)
  {
    hide ExportedSnapshot;
    assert p.intermediates == Exported(c, h).intermediates;
  }

  function Fault(c: Crypto, s: Snapshot): Option<RestoreError> {
    RestoreFault(c.ca, s.certificate, s.privKey)
  }

  predicate Restorable(c: Crypto, p: Persisted) {
    && (p.root.Some? ==> Fault(c, p.root.value).None?)
    && (forall s :: s in p.intermediates ==> Fault(c, p.intermediates[s]).None?)
  }

  function RestoredHolding(c: Crypto, s: Snapshot): Holding
    requires Fault(c, s).None?
  {
    Holding(RestoredAuthority(c.ca, s.certificate, s.privKey), if s.revoked.None? then map[] else s.revoked.value)
  }

  function Restored(c: Crypto, p: Persisted): Hierarchy
    requires Restorable(c, p)
  {
    Hierarchy(
      if p.root.None? then None else Some(RestoredHolding(c, p.root.value)),
      map s | s in p.intermediates :: RestoredHolding(c, p.intermediates[s]))
  }

  lemma {:induction false} IsRestored(c: Crypto, p: Persisted, h: Hierarchy)
    requires Restorable(c, p) && h.root.Some? == p.root.Some? && h.intermediates.Keys == p.intermediates.Keys
    requires h.root.Some? ==> h.root.value == RestoredHolding(c, p.root.value)
    requires forall s :: s in h.intermediates ==> h.intermediates[s] == RestoredHolding(c, p.intermediates[s])
    ensures h == Restored(c, p)
  {
    hide Fault, RestoredHolding;
    assert h.intermediates == Restored(c, p).intermediates;
  }

  function Parsed(c: Crypto, content: Option<Bytes>, password: string): Result<Persisted, StoreError> {
    if password == "" then Err(EmptyPassword)
    else if content.None? then Err(NoFile)
    else
      var plaintext := Decrypt(c, content.value, password);
      if plaintext.Err? then Err(plaintext.error)
      else
        var p := c.unmarshal(plaintext.value);
        if p.None? then Err(BadJson) else Ok(p.value)
  }

  // A restore error names a snapshot that has that fault.
  predicate IsRestoreError(c: Crypto, p: Persisted, e: StoreError) {
    || (e.BadRoot? && p.root.Some? && Fault(c, p.root.value) == Some(e.why))
    || (e.BadIntermediate? && e.serial in p.intermediates && Fault(c, p.intermediates[e.serial]) == Some(e.why))
  }

  // Which error goes with which fault, before anything is restored
  lemma {:induction false} ParsedExplained(c: Crypto, content: Option<Bytes>, password: string)
    ensures
      var r := Parsed(c, content, password);
      && (r == Err(EmptyPassword) <==> password == "")
      && (r == Err(NoFile) <==> password != "" && content.None?)
      && (password != "" && content.Some? && Decrypt(c, content.value, password).Err? ==>
            r.Err? && r.error == Decrypt(c, content.value, password).error)
      && (password != "" && content.Some? && Decrypt(c, content.value, password).Ok? ==>
            var p := c.unmarshal(Decrypt(c, content.value, password).value);
            r == if p.None? then Err(BadJson) else Ok(p.value))
  {
    if content.Some? {
      DecryptExplained(c, content.value, password);
    }
    hide Decrypt;
  }

  predicate AllCoherent(c: Crypto, h: Hierarchy) {
    && (h.root.Some? ==> Coherent(c.ca, h.root.value.id))
    && (forall s :: s in h.intermediates ==> Coherent(c.ca, h.intermediates[s].id))
  }

  // Every CA that any history of Init and IssueIntermediate calls makes is coherent.
  lemma {:induction false} WorldCoherent(d: Suite, steps: seq<CertChain.Step>)
    requires RoundTrips(d)
    ensures forall a :: a in CertChain.Run(d, steps).authorities ==> Coherent(d, a)
  {
    if steps != [] {
      var init, last := steps[..|steps| - 1], steps[|steps| - 1];
      WorldCoherent(d, init);
      var w := CertChain.Run(d, init);
      hide Coherent, RoundTrips;
      match last
      case InitStep(subject, sk, serial, now) =>
        NewAuthorityGood(d, RootBody(d, subject, sk, serial, now), sk, sk);
      case SubStep(i, subject, sk, ttl, serial, now) =>
        if i < |w.authorities| {
          var a := w.authorities[i];
          NewAuthorityGood(d, SubBody(d, a, subject, sk, ttl, serial, now), sk, a.sk);
        }
      case LeafStep(_, _, _, _, _, _, _) =>
    }
  }

  // A hierarchy of such CAs
  predicate MadeBy(d: Suite, steps: seq<CertChain.Step>, h: Hierarchy) {
    var made := CertChain.Run(d, steps).authorities;
    && (h.root.Some? ==> h.root.value.id in made)
    && (forall s :: s in h.intermediates ==> h.intermediates[s].id in made)
  }

  lemma {:induction false} MadeIsCoherent(c: Crypto, steps: seq<CertChain.Step>, h: Hierarchy)
    requires RoundTrips(c.ca) && MadeBy(c.ca, steps, h)
    ensures AllCoherent(c, h)
  {
    WorldCoherent(c.ca, steps);
    hide CertChain.Run, Coherent;
  }

  // So is everything that Load restores.
  lemma {:induction false} RestoredCoherent(c: Crypto, p: Persisted)
    requires Restorable(c, p)
    ensures AllCoherent(c, Restored(c, p))
  {}

  lemma {:induction false} ExportedComesBack(c: Crypto, id: Authority, revoked: map<string, Time>)
    requires RoundTrips(c.ca) && Coherent(c.ca, id)
    ensures
      var s := ExportedSnapshot(c.ca, id, revoked);
      Fault(c, s).None? && RestoredHolding(c, s) == Holding(id, revoked)
  {
    ExportRestores(c.ca, id, revoked);
  }

  lemma {:induction false} HierarchyComesBack(c: Crypto, h: Hierarchy)
    requires RoundTrips(c.ca) && AllCoherent(c, h)
    ensures Restorable(c, Exported(c, h)) && Restored(c, Exported(c, h)) == h && Exported(c, h).version == 1
  {
    hide RoundTrips, Coherent, Fault, RestoredHolding, ExportedSnapshot;
    if h.root.Some? {
      ExportedComesBack(c, h.root.value.id, h.root.value.revoked);
    }
    forall s | s in h.intermediates
      ensures Fault(c, Exported(c, h).intermediates[s]).None?
      ensures RestoredHolding(c, Exported(c, h).intermediates[s]) == h.intermediates[s]
    {
      ExportedComesBack(c, h.intermediates[s].id, h.intermediates[s].revoked);
    }
    assert Restored(c, Exported(c, h)).intermediates == h.intermediates;
  }

  // Loading what was saved, with the same password, gives the same certificates, keys and revocations.
  lemma {:induction false} LoadAfterSave(
    c: Crypto, h: Hierarchy, plaintext: Bytes, password: string, salt: Bytes, nonce: Bytes)
    requires Authentic(c) && JsonRoundTrips(c) && RoundTrips(c.ca) && AllCoherent(c, h)
    requires password != "" && |salt| == SALT_LEN && |nonce| == NONCE_LEN
    requires c.marshal(Exported(c, h)) == Some(plaintext)
    ensures Parsed(c, Some(Encrypted(c, plaintext, password, salt, nonce)), password) == Ok(Exported(c, h))
    ensures Restorable(c, Exported(c, h)) && Restored(c, Exported(c, h)) == h
  {
    HierarchyComesBack(c, h);
    DecryptEncrypted(c, plaintext, password, salt, nonce);
    hide Decrypt, Encrypted, Restorable, Restored;
    assert c.unmarshal(c.marshal(Exported(c, h)).value) == Some(Exported(c, h));
  }

  // ---------- The objects ----------

  class File {
    var content: Option<Bytes>

    constructor ()
      ensures content == None
    {
      content := None;
    }
  }

  // Decoding JSON allocates a new map for each snapshot.
  method RestoreSnapshot(c: Crypto, s: Snapshot) returns (r: Result<CA, RestoreError>)
    ensures r.Err? <==> Fault(c, s).Some?
    ensures r.Err? ==> Fault(c, s) == Some(r.error)
    ensures r.Ok? ==> fresh(r.value) && fresh(r.value.revoked)
    ensures r.Ok? ==> Holding(r.value.id, r.value.revoked.m) == RestoredHolding(c, s)
  {
    var revoked: TimeMap? := null;
    if s.revoked.Some? {
      revoked := new TimeMap(s.revoked.value);
    }
    r := CA.Restore(c.ca, SnapshotRef(s.version, s.certificate, s.privKey, revoked));
  }

  function Held(ca: CA): Holding
    reads ca.revoked
  {
    Holding(ca.id, ca.revoked.m)
  }

  predicate Separate(subs: map<string, CA>) {
    forall s, t :: s in subs && t in subs && s != t ==> subs[s].revoked != subs[t].revoked
  }

  method RestoreAll(c: Crypto, snaps: map<string, Snapshot>) returns (r: Result<map<string, CA>, StoreError>)
    ensures r.Ok? <==> forall s :: s in snaps ==> Fault(c, snaps[s]).None?
    ensures r.Err? ==>
      r.error.BadIntermediate? && r.error.serial in snaps && Fault(c, snaps[r.error.serial]) == Some(r.error.why)
    ensures r.Ok? ==> r.value.Keys == snaps.Keys && Separate(r.value)
    ensures r.Ok? ==> forall s :: s in snaps ==>
      fresh(r.value[s].revoked) && Held(r.value[s]) == RestoredHolding(c, snaps[s])
  {
    hide Fault, RestoredHolding;
    var subs: map<string, CA> := map[];
    var pending := snaps.Keys;
    while pending != {}
      invariant pending <= snaps.Keys && subs.Keys == snaps.Keys - pending && Separate(subs)
      invariant forall s :: s in subs ==>
        fresh(subs[s].revoked) && Fault(c, snaps[s]).None? && Held(subs[s]) == RestoredHolding(c, snaps[s])
      decreases |pending|
    {
      var serial :| serial in pending;
      var sub := RestoreSnapshot(c, snaps[serial]);
      if sub.Err? {
        return Err(BadIntermediate(serial, sub.error));
      }
      subs := subs[serial := sub.value];
      pending := pending - {serial};
    }
    return Ok(subs);
  }

  method ExportSnapshot(c: Crypto, ca: CA) returns (s: Snapshot)
    ensures s == ExportedSnapshot(c.ca, ca.id, ca.revoked.m)
  {
    var r := ca.Export(c.ca);
    s := r.Value();
  }

  function SaveFault(c: Crypto, h: Hierarchy, password: string, written: bool): Option<StoreError> {
    if password == "" then Some(EmptyPassword)
    else if c.marshal(Exported(c, h)).None? then Some(MarshalFailed)
    else if !written then Some(WriteFailed)
    else None
  }

  lemma {:induction false} SaveExplained(c: Crypto, h: Hierarchy, password: string, written: bool)
    ensures
      var f, json := SaveFault(c, h, password, written), c.marshal(Exported(c, h));
      && (f == Some(EmptyPassword) <==> password == "")
      && (f == Some(MarshalFailed) <==> password != "" && json.None?)
      && (f == Some(WriteFailed) <==> password != "" && json.Some? && !written)
      && (f.None? <==> password != "" && json.Some? && written)
  {}

  class Store {
    var root: CA?
    var intermediates: map<string, CA>

    constructor ()
      ensures root == null && intermediates == map[]
    {
      root := null;
      intermediates := map[];
    }

    ghost function Lists(): set<object>
      reads this
    {
      (if root == null then {} else {root.revoked}) + set s | s in intermediates :: intermediates[s].revoked
    }

    ghost function Model(): Hierarchy
      reads this, Lists()
    {
      Hierarchy(
        if root == null then None else Some(Held(root)),
        map s | s in intermediates :: Held(intermediates[s]))
    }

    // No two of the CAs share a revocation list.
    ghost predicate Unshared()
      reads this
    {
      && Separate(intermediates)
      && (root != null ==> forall s :: s in intermediates ==> intermediates[s].revoked != root.revoked)
    }

    method SetRoot(ca: CA)
      modifies this
      ensures root == ca && intermediates == old(intermediates)
    {
      root := ca;
    }

    method SetIntermediate(serial: string, ca: CA)
      modifies this
      ensures root == old(root) && intermediates == old(intermediates)[serial := ca]
    {
      intermediates := intermediates[serial := ca];
    }

    method Snapshots(c: Crypto) returns (p: Persisted)
      ensures p == Exported(c, old(Model()))
    {
      hide ExportedSnapshot, Exported;
      ghost var h := Model();
      var rootSnapshot := None;
      if root != null {
        var snap := ExportSnapshot(c, root);
        rootSnapshot := Some(snap);
      }
      var snaps: map<string, Snapshot> := map[];
      var pending := intermediates.Keys;
      while pending != {}
        invariant pending <= intermediates.Keys && snaps.Keys == intermediates.Keys - pending
        invariant forall s :: s in snaps ==>
          snaps[s] == ExportedSnapshot(c.ca, old(Held(intermediates[s])).id, old(Held(intermediates[s])).revoked)
        decreases |pending|
      {
        var serial :| serial in pending;
        var snap := ExportSnapshot(c, intermediates[serial]);
        snaps := snaps[serial := snap];
        pending := pending - {serial};
      }
      p := Persisted(1, rootSnapshot, snaps);
      IsExported(c, h, p);
    }

    // The write is one step: it replaces the file or leaves it alone.
    method Save(c: Crypto, file: File, password: string, salt: Bytes, nonce: Bytes, written: bool)
      returns (r: Option<StoreError>)
      requires |salt| == SALT_LEN && |nonce| == NONCE_LEN
      modifies file
      ensures r == SaveFault(c, old(Model()), password, written)
      ensures r.Some? ==> file.content == old(file.content)
      ensures r.None? ==>
        file.content == Some(Encrypted(c, c.marshal(Exported(c, old(Model()))).value, password, salt, nonce))
    {
      hide Encrypted, Exported;
      if password == "" {
        return Some(EmptyPassword);
      }
      var p := Snapshots(c);
      var plaintext := c.marshal(p);
      if plaintext.None? {
        return Some(MarshalFailed);
      }
      var data := Encrypt(c, plaintext.value, password, salt, nonce);
      if !written {
        return Some(WriteFailed);
      }
      file.content := Some(data[..]);
      return None;
    }

    static method Load(c: Crypto, file: File, password: string) returns (r: Result<Store, StoreError>)
      ensures Parsed(c, file.content, password).Err? ==>
                r.Err? && r.error == Parsed(c, file.content, password).error
      ensures Parsed(c, file.content, password).Ok? ==>
                (r.Ok? <==> Restorable(c, Parsed(c, file.content, password).value))
      ensures Parsed(c, file.content, password).Ok? && r.Err? ==>
                IsRestoreError(c, Parsed(c, file.content, password).value, r.error)
      ensures r.Ok? ==>
        && fresh(r.value) && fresh(r.value.Lists()) && r.value.Unshared()
        && r.value.Model() == Restored(c, Parsed(c, file.content, password).value)
    {
      hide Parsed, Fault, RestoredHolding, Restored;
      var parsed := Parsed(c, file.content, password);
      if parsed.Err? {
        return Err(parsed.error);
      }
      var p := parsed.value;
      var store := new Store();
      if p.root.Some? {
        var root := RestoreSnapshot(c, p.root.value);
        if root.Err? {
          return Err(BadRoot(root.error));
        }
        store.root := root.value;
      }
      var subs := RestoreAll(c, p.intermediates);
      if subs.Err? {
        return Err(subs.error);
      }
      store.intermediates := subs.value;
      IsRestored(c, p, store.Model());
      return Ok(store);
    }
  }

  // Saving a store and loading the file: everything the CAs hold is there again, in objects of its own.
  method SaveThenLoad(c: Crypto, store: Store, file: File, password: string, salt: Bytes, nonce: Bytes)
    returns (r: Result<Store, StoreError>)
    requires Authentic(c) && JsonRoundTrips(c) && RoundTrips(c.ca) && AllCoherent(c, store.Model())
    requires |salt| == SALT_LEN && |nonce| == NONCE_LEN
    modifies file
    ensures r.Err? <==> SaveFault(c, old(store.Model()), password, true).Some?
    ensures r.Ok? ==> fresh(r.value) && fresh(r.value.Lists()) && r.value.Unshared()
    ensures r.Ok? ==> r.value.Model() == old(store.Model())
  {
    ghost var h := store.Model();
    hide Authentic, JsonRoundTrips, RoundTrips, AllCoherent, Parsed, Encrypted, Exported, Restored, Restorable;
    var fault := store.Save(c, file, password, salt, nonce, true);
    if fault.Some? {
      return Err(fault.value);
    }
    LoadAfterSave(c, h, c.marshal(Exported(c, h)).value, password, salt, nonce);
    r := Store.Load(c, file, password);
  }
}
