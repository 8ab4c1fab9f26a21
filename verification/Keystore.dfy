// The versioned, encrypted key store against the history of what was put into it.
module Keystore {
  import opened Common

  // AES-256-GCM under the master key (nonce, data), and base64
  datatype Suite = Suite(
    seal: (Bytes, Bytes) -> Bytes, open: (Bytes, Bytes) -> Option<Bytes>,
    text: Bytes -> string, untext: string -> Option<Bytes>)

  ghost predicate RoundTrips(d: Suite) {
    && (forall n, p :: d.open(n, d.seal(n, p)) == Some(p))
    && (forall b :: d.untext(d.text(b)) == Some(b))
  }

  const DEFAULT_TTL: int := 90 * 24 * 3600 * SECOND

  datatype DiskVersion = DiskVersion(
    version: int, level: int, ek: string, dkEnc: string, nonce: string,
    createdAt: Time, expiresAt: Time, active: bool)

  type Entries = map<string, seq<DiskVersion>>

  datatype KeyVersion = KeyVersion(
    version: int, level: int, ek: Bytes, dk: Bytes, createdAt: Time, expiresAt: Time, active: bool)

  datatype StoreError =
    | EmptyID | EmptyMaterial | NotFound | NoActiveVersion | NoSuchVersion | KeygenFailed
    | BadEk | BadDkEnc | BadNonce | DecryptFailed | DiskFailed

  // ---------- Operations on the entries ----------

  // The inputs of one Put, with the random nonce and the clock
  datatype NewKey = NewKey(level: int, ek: Bytes, dk: Bytes, ttl: int, nonce: Bytes, now: Time)

  function PutFault(keyID: string, k: NewKey): Option<StoreError> {
    if keyID == "" then Some(EmptyID)
    else if k.ek == [] || k.dk == [] then Some(EmptyMaterial)
    else None
  }

  function Expiry(k: NewKey): Time {
    k.now + if k.ttl <= 0 then DEFAULT_TTL else k.ttl
  }

  function Deactivated(vs: seq<DiskVersion>): (r: seq<DiskVersion>)
    ensures |r| == |vs|
  {
    seq(|vs|, i requires 0 <= i < |vs| => vs[i].(active := false))
  }

  function Versions(e: Entries, keyID: string): seq<DiskVersion> {
    if keyID in e then e[keyID] else []
  }

  function Sealed(d: Suite, version: int, k: NewKey): DiskVersion {
    DiskVersion(version, k.level, d.text(k.ek), d.text(d.seal(k.nonce, k.dk)), d.text(k.nonce), k.now, Expiry(k), true)
  }

  function Put(d: Suite, e: Entries, keyID: string, k: NewKey): Entries {
    var vs := Versions(e, keyID);
    e[keyID := Deactivated(vs) + [Sealed(d, |vs| + 1, k)]]
  }

  function Expire(e: Entries, keyID: string): Entries {
    if keyID in e then e[keyID := Deactivated(e[keyID])] else e
  }

  function Decode(d: Suite, v: DiskVersion): Result<KeyVersion, StoreError> {
    var ek, dkEnc, nonce := d.untext(v.ek), d.untext(v.dkEnc), d.untext(v.nonce);
    if ek.None? then Err(BadEk)
    else if dkEnc.None? then Err(BadDkEnc)
    else if nonce.None? then Err(BadNonce)
    else
      var dk := d.open(nonce.value, dkEnc.value);
      if dk.None? then Err(DecryptFailed)
      else Ok(KeyVersion(v.version, v.level, ek.value, dk.value, v.createdAt, v.expiresAt, v.active))
  }

  // The last usable version among the first n
  function LastUsable(d: Suite, vs: seq<DiskVersion>, n: nat, now: Time): Result<KeyVersion, StoreError>
    requires n <= |vs|
  {
    if n == 0 then Err(NoActiveVersion)
    else if vs[n - 1].active && now < vs[n - 1].expiresAt then Decode(d, vs[n - 1])
    else LastUsable(d, vs, n - 1, now)
  }

  function FirstNumbered(d: Suite, vs: seq<DiskVersion>, i: nat, version: int): Result<KeyVersion, StoreError>
    requires i <= |vs|
    decreases |vs| - i
  {
    if i == |vs| then Err(NoSuchVersion)
    else if vs[i].version == version then Decode(d, vs[i])
    else FirstNumbered(d, vs, i + 1, version)
  }

  function ActiveKey(d: Suite, e: Entries, keyID: string, now: Time): Result<KeyVersion, StoreError> {
    if keyID !in e then Err(NotFound) else LastUsable(d, e[keyID], |e[keyID]|, now)
  }

  function NumberedKey(d: Suite, e: Entries, keyID: string, version: int): Result<KeyVersion, StoreError> {
    if keyID !in e then Err(NotFound) else FirstNumbered(d, e[keyID], 0, version)
  }

  // ---------- The store over time ----------

  datatype State = State(data: Entries, disk: Entries)

  // The calls; saved says whether the write to disk succeeded, and ek, dk are what the key generator
  // returned to Rotate.
  datatype Event =
    | PutEvent(keyID: string, key: NewKey, saved: bool)
    | RotateEvent(keyID: string, ek: Bytes, dk: Bytes, nonce: Bytes, now: Time, saved: bool)
    | ExpireEvent(keyID: string, saved: bool)
    | DeleteEvent(keyID: string, saved: bool)
    | Reopen

  predicate Supported(level: int) {
    level == 768 || level == 1024
  }

  // Rotate keeps the level of the last version.
  function RotationLevel(vs: seq<DiskVersion>): int {
    if vs == [] then 768 else vs[|vs| - 1].level
  }

  // A failed write leaves the disk alone but not the memory.
  function Flushed(s: State, data: Entries, saved: bool): State {
    State(data, if saved then data else s.disk)
  }

  function Next(d: Suite, s: State, e: Event): State
    decreases e.RotateEvent?
  {
    match e
    case PutEvent(id, k, saved) =>
      if PutFault(id, k).Some? then s else Flushed(s, Put(d, s.data, id, k), saved)
    case RotateEvent(id, ek, dk, nonce, now, saved) =>
      if id !in s.data || !Supported(RotationLevel(s.data[id])) then s
      else Next(d, s, PutEvent(id, NewKey(RotationLevel(s.data[id]), ek, dk, DEFAULT_TTL, nonce, now), saved))
    case ExpireEvent(id, saved) => if id !in s.data then s else Flushed(s, Expire(s.data, id), saved)
    case DeleteEvent(id, saved) => if id !in s.data then s else Flushed(s, s.data - {id}, saved)
    case Reopen => State(s.disk, s.disk)
  }

  function Run(d: Suite, events: seq<Event>): State
    decreases |events|
  {
    if events == [] then State(map[], map[]) else Next(d, Run(d, events[..|events| - 1]), events[|events| - 1])
  }

  // ---------- The history ----------

  // What was put under an ID since it was last deleted, and whether nothing has expired the last of it by call
  datatype Line = Line(puts: seq<NewKey>, live: bool)

  type Ledger = map<string, Line>

  // The history, and as much of it as the last successful write covers
  datatype History = History(all: Ledger, saved: Ledger)

  function Puts(h: Ledger, id: string): seq<NewKey> {
    if id in h then h[id].puts else []
  }

  function Entered(h: History, all: Ledger, saved: bool): History {
    History(all, if saved then all else h.saved)
  }

  function Record(h: History, e: Event): History
    decreases e.RotateEvent?
  {
    match e
    case PutEvent(id, k, saved) =>
      if PutFault(id, k).Some? then h else Entered(h, h.all[id := Line(Puts(h.all, id) + [k], true)], saved)
    case RotateEvent(id, ek, dk, nonce, now, saved) =>
      var puts := Puts(h.all, id);
      if puts == [] || !Supported(puts[|puts| - 1].level) then h
      else Record(h, PutEvent(id, NewKey(puts[|puts| - 1].level, ek, dk, DEFAULT_TTL, nonce, now), saved))
    case ExpireEvent(id, saved) =>
      if id !in h.all then h else Entered(h, h.all[id := h.all[id].(live := false)], saved)
    case DeleteEvent(id, saved) => if id !in h.all then h else Entered(h, h.all - {id}, saved)
    case Reopen => History(h.saved, h.saved)
  }

  function Recorded(events: seq<Event>): History
    decreases |events|
  {
    if events == [] then History(map[], map[]) else Record(Recorded(events[..|events| - 1]), events[|events| - 1])
  }

  // ---------- The store represents the history ----------

  // Versions are numbered from 1, hold the material that was put, and only the last can be active.
  predicate Represents(d: Suite, vs: seq<DiskVersion>, line: Line) {
    && |vs| == |line.puts| > 0
    && forall i :: 0 <= i < |vs| ==> vs[i] == Sealed(d, i + 1, line.puts[i]).(active := i == |vs| - 1 && line.live)
  }

  predicate Matches(d: Suite, e: Entries, h: Ledger) {
    && e.Keys == h.Keys
    && forall id :: id in h ==> Represents(d, e[id], h[id])
  }

  predicate Inv(d: Suite, s: State, h: History) {
    Matches(d, s.data, h.all) && Matches(d, s.disk, h.saved)
  }

  lemma {:induction false} PutRepresents(d: Suite, e: Entries, h: Ledger, id: string, k: NewKey)
    requires id in e <==> id in h
    requires id in h ==> Represents(d, e[id], h[id])
    ensures Represents(d, Put(d, e, id, k)[id], Line(Puts(h, id) + [k], true))
  {
    hide Sealed;
    var vs, ws, puts := Versions(e, id), Put(d, e, id, k)[id], Puts(h, id) + [k];
    SealedIsActive(d, |vs| + 1, k);
    forall i | 0 <= i < |ws|
      ensures ws[i] == Sealed(d, i + 1, puts[i]).(active := i == |ws| - 1)
    {
      if i < |vs| {
        assert ws[i] == vs[i].(active := false);
      }
    }
  }

  lemma {:induction false} SealedIsActive(d: Suite, version: int, k: NewKey)
    ensures Sealed(d, version, k).active
  {}

  lemma {:induction false} PutMatches(d: Suite, e: Entries, h: Ledger, id: string, k: NewKey)
    requires Matches(d, e, h)
    ensures Matches(d, Put(d, e, id, k), h[id := Line(Puts(h, id) + [k], true)])
  {
    hide Put, Represents;
    PutKeys(d, e, id, k);
    PutRepresents(d, e, h, id, k);
  }

  lemma {:induction false} ExpireMatches(d: Suite, e: Entries, h: Ledger, id: string)
    requires Matches(d, e, h) && id in h
    ensures Matches(d, Expire(e, id), h[id := h[id].(live := false)])
  {
    ExpireRepresents(d, e[id], h[id]);
    hide Represents;
  }

  lemma {:induction false} NextKeepsInv(d: Suite, s: State, h: History, e: Event)
    requires Inv(d, s, h)
    ensures Inv(d, Next(d, s, e), Record(h, e))
    decreases e.RotateEvent?
  {
    match e
    case PutEvent(id, k, saved) =>
      PutMatches(d, s.data, h.all, id, k);
      hide Put, PutFault, Represents;
    case RotateEvent(id, ek, dk, nonce, now, saved) =>
      if id in h.all {
        LastLevel(d, s.data[id], h.all[id]);
        NextKeepsInv(d, s, h, PutEvent(id, NewKey(RotationLevel(s.data[id]), ek, dk, DEFAULT_TTL, nonce, now), saved));
      }
    case ExpireEvent(id, saved) =>
      if id in h.all {
        ExpireMatches(d, s.data, h.all, id);
      }
      hide Expire, Represents;
    case DeleteEvent(id, saved) =>
      hide Represents;
    case Reopen =>
  }

  lemma {:induction false} PutKeys(d: Suite, e: Entries, id: string, k: NewKey)
    ensures Put(d, e, id, k).Keys == e.Keys + {id}
    ensures forall other :: other in e && other != id ==> Put(d, e, id, k)[other] == e[other]
  {}

  lemma {:induction false} LastLevel(d: Suite, vs: seq<DiskVersion>, line: Line)
    requires Represents(d, vs, line)
    ensures |line.puts| > 0 && RotationLevel(vs) == line.puts[|line.puts| - 1].level
  {
    var i := |vs| - 1;
    assert vs[i] == Sealed(d, i + 1, line.puts[i]).(active := line.live);
  }

  lemma {:induction false} ExpireRepresents(d: Suite, vs: seq<DiskVersion>, line: Line)
    requires Represents(d, vs, line)
    ensures Represents(d, Deactivated(vs), line.(live := false))
  {}

  lemma {:induction false} RunInv(d: Suite, events: seq<Event>)
    ensures Inv(d, Run(d, events), Recorded(events))
    decreases |events|
  {
    if events != [] {
      RunInv(d, events[..|events| - 1]);
      NextKeepsInv(d, Run(d, events[..|events| - 1]), Recorded(events[..|events| - 1]), events[|events| - 1]);
    }
  }

  // What is refused, and that a refusal changes nothing
  lemma {:induction false} RefusalsChangeNothing(d: Suite, s: State, e: Event)
    ensures
      match e
      case PutEvent(id, k, _) =>
        && (PutFault(id, k) == Some(EmptyID) <==> id == "")
        && (PutFault(id, k) == Some(EmptyMaterial) <==> id != "" && (|k.ek| == 0 || |k.dk| == 0))
        && (PutFault(id, k).None? <==> id != "" && |k.ek| > 0 && |k.dk| > 0)
        && (PutFault(id, k).Some? ==> Next(d, s, e) == s)
      case RotateEvent(id, ek, dk, _, _, _) =>
        id !in s.data || id == "" || |ek| == 0 || |dk| == 0 ==> Next(d, s, e) == s
      case ExpireEvent(id, _) => id !in s.data ==> Next(d, s, e) == s
      case DeleteEvent(id, _) => id !in s.data ==> Next(d, s, e) == s
      case Reopen => true
  {
    hide Put;
  }

  // Which error goes with which part of a version that does not decode
  lemma {:induction false} DecodeExplained(d: Suite, v: DiskVersion)
    ensures
      var r, ct, n := Decode(d, v), d.untext(v.dkEnc), d.untext(v.nonce);
      && (r == Err(BadEk) <==> d.untext(v.ek).None?)
      && (r == Err(BadDkEnc) ==> ct.None?) && (r == Err(BadNonce) ==> n.None?)
      && (r == Err(DecryptFailed) ==> ct.Some? && n.Some? && d.open(n.value, ct.value).None?)
      && (r.Ok? <==> d.untext(v.ek).Some? && ct.Some? && n.Some? && d.open(n.value, ct.value).Some?)
      && (r.Err? ==> r.error in {BadEk, BadDkEnc, BadNonce, DecryptFailed})
  {}

  // ---------- What readers get ----------

  lemma {:induction false} DecodeSealed(d: Suite, version: int, k: NewKey, active: bool)
    requires RoundTrips(d)
    ensures Decode(d, Sealed(d, version, k).(active := active))
         == Ok(KeyVersion(version, k.level, k.ek, k.dk, k.now, Expiry(k), active))
  {
    assert d.untext(d.text(k.ek)) == Some(k.ek);
    assert d.untext(d.text(d.seal(k.nonce, k.dk))) == Some(d.seal(k.nonce, k.dk));
    assert d.untext(d.text(k.nonce)) == Some(k.nonce);
    assert d.open(k.nonce, d.seal(k.nonce, k.dk)) == Some(k.dk);
  }

  // What a line of the history says about its version of the given number
  function VersionOf(line: Line, version: int): KeyVersion
    requires 1 <= version <= |line.puts|
  {
    var k := line.puts[version - 1];
    KeyVersion(version, k.level, k.ek, k.dk, k.now, Expiry(k), version == |line.puts| && line.live)
  }

  lemma {:induction false} NumberedIn(d: Suite, vs: seq<DiskVersion>, line: Line, i: nat, version: int)
    requires RoundTrips(d) && Represents(d, vs, line) && i <= |vs|
    ensures i < version <= |vs| ==> FirstNumbered(d, vs, i, version) == Ok(VersionOf(line, version))
    ensures version <= i || version > |vs| ==> FirstNumbered(d, vs, i, version) == Err(NoSuchVersion)
    decreases |vs| - i
  {
    if i < |vs| {
      assert vs[i] == Sealed(d, i + 1, line.puts[i]).(active := i == |vs| - 1 && line.live);
      DecodeSealed(d, i + 1, line.puts[i], i == |vs| - 1 && line.live);
      NumberedIn(d, vs, line, i + 1, version);
    }
  }

  lemma {:induction false} NoneUsable(d: Suite, vs: seq<DiskVersion>, n: nat, now: Time)
    requires n <= |vs| && forall i :: 0 <= i < n ==> !(vs[i].active && now < vs[i].expiresAt)
    ensures LastUsable(d, vs, n, now) == Err(NoActiveVersion)
  {
    if n > 0 {
      NoneUsable(d, vs, n - 1, now);
    }
  }

  // GetVersion returns the v-th material put under the ID since it was last deleted, and nothing else.
  lemma {:induction false} VersionReturnsPut(d: Suite, events: seq<Event>, keyID: string, version: int)
    requires RoundTrips(d)
    ensures
      var h, r := Recorded(events).all, NumberedKey(d, Run(d, events).data, keyID, version);
      r == if keyID !in h then Err(NotFound)
           else if 1 <= version <= |h[keyID].puts| then Ok(VersionOf(h[keyID], version))
           else Err(NoSuchVersion)
  {
    RunInv(d, events);
    if keyID in Recorded(events).all {
      NumberedIn(d, Run(d, events).data[keyID], Recorded(events).all[keyID], 0, version);
    }
  }

  // GetActive returns the last version put exactly when it is expired neither by call nor by time.
  lemma {:induction false} ActiveReturnsLast(d: Suite, events: seq<Event>, keyID: string, now: Time)
    requires RoundTrips(d)
    ensures keyID in Recorded(events).all ==> |Recorded(events).all[keyID].puts| > 0
    ensures
      var h, r := Recorded(events).all, ActiveKey(d, Run(d, events).data, keyID, now);
      r == if keyID !in h then Err(NotFound)
           else
             var last := VersionOf(h[keyID], |h[keyID].puts|);
             if last.active && now < last.expiresAt then Ok(last) else Err(NoActiveVersion)
  {
    RunInv(d, events);
    if keyID in Recorded(events).all {
      ActiveIn(d, Run(d, events).data[keyID], Recorded(events).all[keyID], now);
    }
  }

  lemma {:induction false} ActiveIn(d: Suite, vs: seq<DiskVersion>, line: Line, now: Time)
    requires RoundTrips(d) && Represents(d, vs, line)
    ensures
      var last := VersionOf(line, |line.puts|);
      LastUsable(d, vs, |vs|, now) == if last.active && now < last.expiresAt then Ok(last) else Err(NoActiveVersion)
  {
    var n := |vs|;
    assert vs[n - 1] == Sealed(d, n, line.puts[n - 1]).(active := line.live);
    DecodeSealed(d, n, line.puts[n - 1], line.live);
    assert forall i :: 0 <= i < n - 1 ==> !vs[i].active;
    NoneUsable(d, vs, n - 1, now);
  }

  // After a Put that is not refused, until it expires, the new key is the active one, under the next number, alive
  // for ttl or for ninety days; other IDs are as before.
  lemma {:induction false} PutThenActive(
    d: Suite, events: seq<Event>, keyID: string, k: NewKey, saved: bool, now: Time, other: string)
    requires RoundTrips(d) && keyID != "" && |k.ek| > 0 && |k.dk| > 0
    ensures
      var before, after := Run(d, events).data, Next(d, Run(d, events), PutEvent(keyID, k, saved)).data;
      var n := if keyID in before then |before[keyID]| + 1 else 1;
      var expiry := k.now + if k.ttl > 0 then k.ttl else 90 * 86_400 * SECOND;
      && ActiveKey(d, after, keyID, now)
         == (if now < expiry then Ok(KeyVersion(n, k.level, k.ek, k.dk, k.now, expiry, true)) else Err(NoActiveVersion))
      && (other != keyID ==> ActiveKey(d, after, other, now) == ActiveKey(d, before, other, now))
  {
    var all := events + [PutEvent(keyID, k, saved)];
    assert all[..|events|] == events;
    RunInv(d, events);
    ActiveReturnsLast(d, all, keyID, now);
    PutKeys(d, Run(d, events).data, keyID, k);
    hide Put, Represents, RoundTrips;
  }

  // After a Rotate of an ID with versions, the generated key is the active one, at the level of the last version.
  lemma {:induction false} RotateThenActive(
    d: Suite, events: seq<Event>, keyID: string, ek: Bytes, dk: Bytes, nonce: Bytes, made: Time, saved: bool, now: Time)
    requires RoundTrips(d) && keyID in Run(d, events).data && |ek| > 0 && |dk| > 0 && keyID != ""
    requires |Run(d, events).data[keyID]| > 0
    requires var vs := Run(d, events).data[keyID]; vs[|vs| - 1].level == 768 || vs[|vs| - 1].level == 1024
    requires now < made + 90 * 86_400 * SECOND
    ensures
      var vs := Run(d, events).data[keyID];
      var after := Next(d, Run(d, events), RotateEvent(keyID, ek, dk, nonce, made, saved)).data;
      ActiveKey(d, after, keyID, now)
        == Ok(KeyVersion(|vs| + 1, vs[|vs| - 1].level, ek, dk, made, made + 90 * 86_400 * SECOND, true))
  {
    var vs := Run(d, events).data[keyID];
    var k := NewKey(vs[|vs| - 1].level, ek, dk, DEFAULT_TTL, nonce, made);
    PutThenActive(d, events, keyID, k, saved, now, "");
    hide Put, ActiveKey, RoundTrips;
  }

  // After Expire no version is active and all can still be read; after Delete nothing is there.
  lemma {:induction false} ExpireAndDelete(
    d: Suite, events: seq<Event>, keyID: string, saved: bool, now: Time, version: int)
    requires RoundTrips(d) && keyID in Run(d, events).data
    ensures
      var before, expired := Run(d, events).data, Next(d, Run(d, events), ExpireEvent(keyID, saved)).data;
      && ActiveKey(d, expired, keyID, now) == Err(NoActiveVersion)
      && (1 <= version <= |before[keyID]| ==>
            var was, left := NumberedKey(d, before, keyID, version), NumberedKey(d, expired, keyID, version);
            was.Ok? && left == Ok(was.value.(active := false)))
      && var deleted := Next(d, Run(d, events), DeleteEvent(keyID, saved)).data;
         ActiveKey(d, deleted, keyID, now) == Err(NotFound) && NumberedKey(d, deleted, keyID, version) == Err(NotFound)
  {
    var all := events + [ExpireEvent(keyID, saved)];
    assert all[..|events|] == events;
    RunInv(d, events);
    ActiveReturnsLast(d, all, keyID, now);
    VersionReturnsPut(d, events, keyID, version);
    VersionReturnsPut(d, all, keyID, version);
    hide Represents, Expire, RoundTrips;
  }

  // A change that was not written is gone after reopening, and one that was written is there.
  lemma {:induction false} ReopenAfter(d: Suite, s: State, e: Event)
    requires !e.Reopen?
    ensures
      var after := Next(d, s, e);
      Next(d, after, Reopen).data == if e.saved && after != s then after.data else s.disk
    decreases e.RotateEvent?
  {
    hide Put, Expire;
  }

  // At most one version of an ID is active, and then it is the last one.
  lemma {:induction false} OnlyLastActive(d: Suite, events: seq<Event>, keyID: string, i: nat)
    requires keyID in Run(d, events).data && i < |Run(d, events).data[keyID]|
    ensures Run(d, events).data[keyID][i].version == i + 1
    ensures Run(d, events).data[keyID][i].active ==> i == |Run(d, events).data[keyID]| - 1
  {
    RunInv(d, events);
    var vs, line := Run(d, events).data[keyID], Recorded(events).all[keyID];
    assert vs[i] == Sealed(d, i + 1, line.puts[i]).(active := i == |vs| - 1 && line.live);
  }

  // ---------- The object ----------

  class Disk {
    var content: Entries

    constructor ()
      ensures content == map[]
    {
      content := map[];
    }
  }

  class Store {
    const d: Suite
    const disk: Disk
    var data: Entries

    ghost function Model(): State
      reads this, disk
    {
      State(data, disk.content)
    }

    // Opening an existing file
    constructor (d: Suite, disk: Disk)
      ensures this.d == d && this.disk == disk && data == disk.content
    {
      this.d, this.disk := d, disk;
      data := disk.content;
    }

    method Flush(saved: bool) returns (r: Option<StoreError>)
      modifies disk
      ensures r == if saved then None else Some(DiskFailed)
      ensures disk.content == if saved then data else old(disk.content)
    {
      if !saved {
        return Some(DiskFailed);
      }
      disk.content := data;
      return None;
    }

    method DeactivateAll(keyID: string)
      requires keyID in data
      modifies this
      ensures data == old(data)[keyID := Deactivated(old(data)[keyID])]
    {
      var vs := data[keyID];
      for i := 0 to |vs|
        invariant keyID in data && |data[keyID]| == |vs|
        invariant forall j :: 0 <= j < |vs| ==> data[keyID][j] == if j < i then vs[j].(active := false) else vs[j]
        invariant data == old(data)[keyID := data[keyID]]
      {
        data := data[keyID := data[keyID][i := data[keyID][i].(active := false)]];
      }
      assert data[keyID] == Deactivated(vs);
    }

    method PutKey(keyID: string, k: NewKey, saved: bool) returns (r: Option<StoreError>)
      modifies this, disk
      ensures Model() == Next(d, old(Model()), PutEvent(keyID, k, saved))
      ensures r == if PutFault(keyID, k).Some? then PutFault(keyID, k) else if saved then None else Some(DiskFailed)
    {
      if keyID == "" {
        return Some(EmptyID);
      }
      if |k.ek| == 0 || |k.dk| == 0 {
        return Some(EmptyMaterial);
      }
      if keyID !in data {
        data := data[keyID := []];
      }
      DeactivateAll(keyID);
      var ver := |data[keyID]| + 1;
      data := data[keyID := data[keyID] + [Sealed(d, ver, k)]];
      assert data == Put(d, old(data), keyID, k);
      r := Flush(saved);
    }

    method RotateKey(keyID: string, ek: Bytes, dk: Bytes, nonce: Bytes, now: Time, saved: bool)
      returns (r: Result<Bytes, StoreError>)
      modifies this, disk
      ensures Model() == Next(d, old(Model()), RotateEvent(keyID, ek, dk, nonce, now, saved))
      ensures r ==
        if keyID !in old(data) then Err(NotFound)
        else if !Supported(RotationLevel(old(data)[keyID])) then Err(KeygenFailed)
        else if keyID == "" then Err(EmptyID)
        else if ek == [] || dk == [] then Err(EmptyMaterial)
        else if saved then Ok(ek)
        else Err(DiskFailed)
    {
      if keyID !in data {
        return Err(NotFound);
      }
      var level := 768;
      if |data[keyID]| > 0 {
        level := data[keyID][|data[keyID]| - 1].level;
      }
      if !Supported(level) {
        return Err(KeygenFailed);
      }
      var failed := PutKey(keyID, NewKey(level, ek, dk, DEFAULT_TTL, nonce, now), saved);
      if failed.Some? {
        return Err(failed.value);
      }
      return Ok(ek);
    }

    method ExpireKey(keyID: string, saved: bool) returns (r: Option<StoreError>)
      modifies this, disk
      ensures Model() == Next(d, old(Model()), ExpireEvent(keyID, saved))
      ensures r == if keyID !in old(data) then Some(NotFound) else if saved then None else Some(DiskFailed)
    {
      if keyID !in data {
        return Some(NotFound);
      }
      DeactivateAll(keyID);
      r := Flush(saved);
    }

    method DeleteKey(keyID: string, saved: bool) returns (r: Option<StoreError>)
      modifies this, disk
      ensures Model() == Next(d, old(Model()), DeleteEvent(keyID, saved))
      ensures r == if keyID !in old(data) then Some(NotFound) else if saved then None else Some(DiskFailed)
    {
      if keyID !in data {
        return Some(NotFound);
      }
      data := data - {keyID};
      r := Flush(saved);
    }

    method GetActive(keyID: string, now: Time) returns (r: Result<KeyVersion, StoreError>)
      ensures r == ActiveKey(d, data, keyID, now)
    {
      if keyID !in data {
        return Err(NotFound);
      }
      var vs := data[keyID];
      for i := |vs| downto 0
        invariant LastUsable(d, vs, |vs|, now) == LastUsable(d, vs, i, now)
      {
        if vs[i].active && now < vs[i].expiresAt {
          return Decode(d, vs[i]);
        }
      }
      return Err(NoActiveVersion);
    }

    method GetVersion(keyID: string, version: int) returns (r: Result<KeyVersion, StoreError>)
      ensures r == NumberedKey(d, data, keyID, version)
    {
      if keyID !in data {
        return Err(NotFound);
      }
      var vs := data[keyID];
      for i := 0 to |vs|
        invariant FirstNumbered(d, vs, 0, version) == FirstNumbered(d, vs, i, version)
      {
        if vs[i].version == version {
          return Decode(d, vs[i]);
        }
      }
      return Err(NoSuchVersion);
    }
  }
}
