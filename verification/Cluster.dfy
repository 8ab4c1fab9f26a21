// The replicated state machine: what a node holds after applying the log.
module Cluster {
  import opened Common
  import opened CertAuthority

  // ---------- State and commands ----------

  datatype KeyEntry = KeyEntry(keyID: string, level: string, ek: Bytes, dk: Bytes)

  datatype State = State(
    keys: map<string, KeyEntry>, root: Option<Snapshot>, intermediates: map<string, Snapshot>)

  const EMPTY := State(map[], None, map[])

  // A committed log entry after JSON decoding; None stands for a payload or a snapshot inside it
  // that does not decode.
  datatype Command =
    | Undecodable
    | UnknownOp(op: string)
    | GenerateKey(entry: Option<KeyEntry>)
    | DeleteKey(keyID: Option<string>)
    | CAInit(snapshot: Option<Snapshot>)
    | CASign
    | CARevoke(serial: Option<string>)
    | CAIntermediate(sub: Option<(string, Snapshot)>)

  datatype Failure =
    | BadEncoding | BadOp | BadPayload | NotInitialised | CannotRestore(why: RestoreError) | EmptyRevocation

  // What revoking does to the stored root: restore, revoke, export again
  function RevokeRoot(d: Suite, root: Snapshot, serial: string, now: Time): Result<Snapshot, Failure> {
    var fault := RestoreFault(d, root.certificate, root.privKey);
    if fault.Some? then Err(CannotRestore(fault.value))
    else if TrimSpace(serial) == "" then Err(EmptyRevocation)
    else
      var a := RestoredAuthority(d, root.certificate, root.privKey);
      Ok(ExportedSnapshot(d, a, Revoke(if root.revoked.None? then map[] else root.revoked.value, serial, now)))
  }

  // One entry applied at a node whose clock shows now
  function Apply(d: Suite, s: State, c: Command, now: Time): (State, Option<Failure>) {
    match c
    case Undecodable => (s, Some(Failure.BadEncoding))
    case UnknownOp(_) => (s, Some(BadOp))
    case GenerateKey(e) =>
      if e.None? then (s, Some(BadPayload)) else (s.(keys := s.keys[e.value.keyID := e.value]), None)
    case DeleteKey(id) =>
      if id.None? then (s, Some(BadPayload)) else (s.(keys := s.keys - {id.value}), None)
    case CAInit(snap) =>
      if snap.None? then (s, Some(BadPayload)) else (s.(root := snap), None)
    case CASign => (s, None)
    case CARevoke(serial) =>
      if serial.None? then (s, Some(BadPayload))
      else if s.root.None? then (s, Some(NotInitialised))
      else
        var r := RevokeRoot(d, s.root.value, serial.value, now);
        if r.Err? then (s, Some(r.error)) else (s.(root := Some(r.value)), None)
    case CAIntermediate(sub) =>
      if sub.None? then (s, Some(BadPayload))
      else (s.(intermediates := s.intermediates[sub.value.0 := sub.value.1]), None)
  }

  lemma {:induction false} Unchanging(d: Suite, s: State, c: Command, now: Time)
    ensures c.Undecodable? ==> Apply(d, s, c, now) == (s, Some(Failure.BadEncoding))
    ensures c.UnknownOp? ==> Apply(d, s, c, now) == (s, Some(BadOp))
    ensures c.CASign? ==> Apply(d, s, c, now) == (s, None)
  {}

  // ---------- Snapshot and restore ----------

  // The serialised state; None stands for a map written as null or missing.
  datatype Image = Image(
    keys: Option<map<string, KeyEntry>>, root: Option<Snapshot>, intermediates: Option<map<string, Snapshot>>)

  function Persist(s: State): Image {
    Image(Some(s.keys), s.root, Some(s.intermediates))
  }

  function Install(i: Image): State {
    State(if i.keys.None? then map[] else i.keys.value, i.root,
          if i.intermediates.None? then map[] else i.intermediates.value)
  }

  // Restoring a snapshot gives the state it was taken of, revocation times and versions included; a map that the
  // image lacks becomes empty.
  lemma {:induction false} SnapshotRoundTrip(s: State, root: Option<Snapshot>)
    ensures Install(Persist(s)) == s
    ensures Install(Image(None, root, None)) == State(map[], root, map[])
  {}

  // What a successful entry does, in plain terms
  lemma {:induction false} EntryEffect(d: Suite, s: State, c: Command, now: Time)
    ensures
      var (after, failed) := Apply(d, s, c, now);
      && (failed.Some? ==> after == s)
      && (c.GenerateKey? && failed.None? ==>
            var e := c.entry.value;
            && e.keyID in after.keys && after.keys[e.keyID] == e && after.keys - {e.keyID} == s.keys - {e.keyID}
            && after.root == s.root && after.intermediates == s.intermediates)
      && (c.DeleteKey? && failed.None? ==>
            && c.keyID.value !in after.keys && after.keys == s.keys - {c.keyID.value}
            && after.root == s.root && after.intermediates == s.intermediates)
      && (c.CAInit? && failed.None? ==>
            after.root == c.snapshot && after.keys == s.keys && after.intermediates == s.intermediates)
      && (c.CASign? ==> after == s && failed.None?)
      && (c.CAIntermediate? && failed.None? ==>
            var (id, snap) := c.sub.value;
            && id in after.intermediates && after.intermediates[id] == snap
            && after.intermediates - {id} == s.intermediates - {id}
            && after.keys == s.keys && after.root == s.root)
  {
    hide RevokeRoot;
  }

  // When an entry fails, and with which error
  lemma {:induction false} FailureExactly(d: Suite, s: State, c: Command, now: Time)
    ensures
      var failed := Apply(d, s, c, now).1;
      && (c.Undecodable? ==> failed == Some(Failure.BadEncoding))
      && (c.UnknownOp? ==> failed == Some(BadOp))
      && (c.GenerateKey? ==> failed == if c.entry.None? then Some(BadPayload) else None)
      && (c.DeleteKey? ==> failed == if c.keyID.None? then Some(BadPayload) else None)
      && (c.CAInit? ==> failed == if c.snapshot.None? then Some(BadPayload) else None)
      && (c.CAIntermediate? ==> failed == if c.sub.None? then Some(BadPayload) else None)
      && (c.CARevoke? && c.serial.None? ==> failed == Some(BadPayload))
      && (c.CARevoke? && c.serial.Some? && s.root.None? ==> failed == Some(NotInitialised))
      && (c.CARevoke? && c.serial.Some? && s.root.Some? ==>
            var fault := RestoreFault(d, s.root.value.certificate, s.root.value.privKey);
            failed == if fault.Some? then Some(CannotRestore(fault.value))
                      else if Blank(c.serial.value) then Some(EmptyRevocation) else None)
  {
    if c.CARevoke? && c.serial.Some? {
      BlankExactly(c.serial.value);
    }
    hide TrimSpace, RestoreFault, RestoredAuthority, Blank;
  }

  // A successful revocation enters the trimmed serial with the time of its first revocation and keeps the other
  // entries, the certificate and the keys.
  lemma {:induction false} RevocationEffect(d: Suite, s: State, a: string, t: string, b: string, now: Time)
    requires RoundTrips(d) && Blank(a) && Blank(b) && t != "" && Trimmed(t)
    requires s.root.Some? && RestoreFault(d, s.root.value.certificate, s.root.value.privKey).None?
    ensures
      var root := s.root.value;
      var (after, failed) := Apply(d, s, CARevoke(Some(a + t + b)), now);
      var had := if root.revoked.None? then map[] else root.revoked.value;
      && failed.None? && after.root.Some? && after.keys == s.keys && after.intermediates == s.intermediates
      && after.root.value.version == 1 && after.root.value.certificate == root.certificate
      && after.root.value.revoked == Some(if t in had then had else had[t := now])
      && RestoreFault(d, after.root.value.certificate, after.root.value.privKey).None?
      && RestoredAuthority(d, after.root.value.certificate, after.root.value.privKey)
         == RestoredAuthority(d, root.certificate, root.privKey)
  {
    var root := s.root.value;
    var had := if root.revoked.None? then map[] else root.revoked.value;
    TrimPadded(a, t, b);
    ExportRestores(d, RestoredAuthority(d, root.certificate, root.privKey), Revoke(had, a + t + b, now));
    hide TrimSpace, RestoreFault, Blank;
  }

  // ---------- The state up to the times of revocation ----------

  datatype TimelessRoot = TimelessRoot(
    version: int, certificate: Option<Certificate>, privKey: string, revoked: Option<set<string>>)

  datatype Timeless = Timeless(
    keys: map<string, KeyEntry>, root: Option<TimelessRoot>, intermediates: map<string, Snapshot>)

  function EraseRoot(r: Snapshot): TimelessRoot {
    TimelessRoot(r.version, r.certificate, r.privKey, if r.revoked.None? then None else Some(r.revoked.value.Keys))
  }

  function Erase(s: State): Timeless {
    Timeless(s.keys, if s.root.None? then None else Some(EraseRoot(s.root.value)), s.intermediates)
  }

  // The stored root after the given serials have been revoked
  function Normal(d: Suite, r: TimelessRoot, serials: set<string>): TimelessRoot
    requires RestoreFault(d, r.certificate, r.privKey).None?
  {
    var a := RestoredAuthority(d, r.certificate, r.privKey);
    TimelessRoot(1, Some(a.cert), d.text(d.skBytes(a.sk)),
                 Some((if r.revoked.None? then {} else r.revoked.value) + serials))
  }

  // One entry applied without any clock
  function TimelessApply(d: Suite, s: Timeless, c: Command): (Timeless, Option<Failure>) {
    match c
    case Undecodable => (s, Some(Failure.BadEncoding))
    case UnknownOp(_) => (s, Some(BadOp))
    case GenerateKey(e) =>
      if e.None? then (s, Some(BadPayload)) else (s.(keys := s.keys[e.value.keyID := e.value]), None)
    case DeleteKey(id) =>
      if id.None? then (s, Some(BadPayload)) else (s.(keys := s.keys - {id.value}), None)
    case CAInit(snap) =>
      if snap.None? then (s, Some(BadPayload)) else (s.(root := Some(EraseRoot(snap.value))), None)
    case CASign => (s, None)
    case CARevoke(serial) =>
      if serial.None? then (s, Some(BadPayload))
      else if s.root.None? then (s, Some(NotInitialised))
      else
        var fault := RestoreFault(d, s.root.value.certificate, s.root.value.privKey);
        if fault.Some? then (s, Some(CannotRestore(fault.value)))
        else if TrimSpace(serial.value) == "" then (s, Some(EmptyRevocation))
        else (s.(root := Some(Normal(d, s.root.value, {TrimSpace(serial.value)}))), None)
    case CAIntermediate(sub) =>
      if sub.None? then (s, Some(BadPayload))
      else (s.(intermediates := s.intermediates[sub.value.0 := sub.value.1]), None)
  }

  lemma {:induction false} RevokeKeys(revoked: map<string, Time>, serial: string, now: Time)
    requires TrimSpace(serial) != ""
    ensures Revoke(revoked, serial, now).Keys == revoked.Keys + {TrimSpace(serial)}
  {}

  // Erasing the times commutes with applying an entry, whatever the clock shows, and the outcome
  // of the entry does not depend on the clock either.
  lemma {:induction false} ApplyErases(d: Suite, s: State, c: Command, now: Time)
    ensures Erase(Apply(d, s, c, now).0) == TimelessApply(d, Erase(s), c).0
    ensures Apply(d, s, c, now).1 == TimelessApply(d, Erase(s), c).1
  {
    if c.CARevoke? && c.serial.Some? && s.root.Some? && TrimSpace(c.serial.value) != "" {
      var had := if s.root.value.revoked.None? then map[] else s.root.value.revoked.value;
      RevokeKeys(had, c.serial.value, now);
      hide TrimSpace, Revoke;
      assert s.root.value.revoked.None? ==> had.Keys == {};
    }
  }

  // ---------- Where the clock shows ----------

  function Revocations(root: Snapshot): map<string, Time> {
    if root.revoked.None? then map[] else root.revoked.value
  }

  // The entry puts a new serial on the list, with the time of the node that applies it.
  predicate FreshRevocation(d: Suite, s: State, c: Command) {
    && c.CARevoke? && c.serial.Some? && s.root.Some?
    && RestoreFault(d, s.root.value.certificate, s.root.value.privKey).None?
    && TrimSpace(c.serial.value) != ""
    && TrimSpace(c.serial.value) !in Revocations(s.root.value)
  }

  // Two nodes in one state agree on an entry exactly, times included, if and only if their clocks agree or the
  // entry is no fresh revocation.
  lemma {:induction false} DeterministicExactly(d: Suite, s: State, c: Command, now: Time, other: Time)
    ensures Apply(d, s, c, now) == Apply(d, s, c, other) <==> now == other || !FreshRevocation(d, s, c)
  {
    if FreshRevocation(d, s, c) {
      var t := TrimSpace(c.serial.value);
      hide TrimSpace;
      assert Revocations(Apply(d, s, c, now).0.root.value)[t] == now;
      assert Revocations(Apply(d, s, c, other).0.root.value)[t] == other;
    }
  }

  // An entry applied a second time at once changes nothing at all, revocation times included.
  lemma {:induction false} ApplyTwice(d: Suite, s: State, c: Command, now: Time, again: Time)
    requires RoundTrips(d)
    ensures Apply(d, Apply(d, s, c, now).0, c, again).0 == Apply(d, s, c, now).0
  {
    if c.CARevoke? && c.serial.Some? && s.root.Some? {
      RevokeTwice(d, s.root.value, c.serial.value, now, again);
    }
  }

  lemma {:induction false} RevokeTwice(d: Suite, root: Snapshot, serial: string, now: Time, again: Time)
    requires RoundTrips(d)
    ensures var r := RevokeRoot(d, root, serial, now);
            r.Ok? ==> RevokeRoot(d, r.value, serial, again) == r
  {
    if RestoreFault(d, root.certificate, root.privKey).None? {
      var a := RestoredAuthority(d, root.certificate, root.privKey);
      ExportRestores(d, a, Revoke(Revocations(root), serial, now));
      hide RestoreFault, RestoredAuthority, TrimSpace;
    }
  }

  // ---------- Replica agreement ----------

  // How a node came to its state: a fresh node, one more entry applied at a local time, or a
  // snapshot taken by any node and restored here.
  datatype History =
    | Fresh
    | Step(before: History, now: Time)
    | Restored(from: History)

  function Applied(h: History): nat {
    match h
    case Fresh => 0
    case Step(b, _) => Applied(b) + 1
    case Restored(f) => Applied(f)
  }

  function StateOf(d: Suite, log: seq<Command>, h: History): State
    requires Applied(h) <= |log|
  {
    match h
    case Fresh => EMPTY
    case Step(b, now) => Apply(d, StateOf(d, log, b), log[Applied(b)], now).0
    case Restored(f) => Install(Persist(StateOf(d, log, f)))
  }

  function TimelessRun(d: Suite, s: Timeless, log: seq<Command>): Timeless
    decreases |log|
  {
    if log == [] then s
    else TimelessApply(d, TimelessRun(d, s, log[..|log| - 1]), log[|log| - 1]).0
  }

  lemma {:induction false} HistoryErases(d: Suite, log: seq<Command>, h: History)
    requires Applied(h) <= |log|
    ensures Erase(StateOf(d, log, h)) == TimelessRun(d, Erase(EMPTY), log[..Applied(h)])
  {
    match h
    case Fresh =>
    case Step(b, now) =>
      HistoryErases(d, log, b);
      ApplyErases(d, StateOf(d, log, b), log[Applied(b)], now);
      assert log[..Applied(h)][..Applied(b)] == log[..Applied(b)];
    case Restored(f) =>
      HistoryErases(d, log, f);
  }

  // Any two nodes that reflect the same prefix of the log agree up to revocation times, and the
  // next entry has the same outcome at both.
  lemma {:induction false} ReplicasAgree(d: Suite, log: seq<Command>, h: History, g: History, now: Time, other: Time)
    requires Applied(h) == Applied(g) <= |log|
    ensures Erase(StateOf(d, log, h)) == Erase(StateOf(d, log, g))
    ensures Applied(h) < |log| ==>
      Apply(d, StateOf(d, log, h), log[Applied(h)], now).1 == Apply(d, StateOf(d, log, g), log[Applied(g)], other).1
  {
    HistoryErases(d, log, h);
    HistoryErases(d, log, g);
    if Applied(h) < |log| {
      ApplyErases(d, StateOf(d, log, h), log[Applied(h)], now);
      ApplyErases(d, StateOf(d, log, g), log[Applied(g)], other);
    }
  }

  // ---------- Two nodes that part ----------

  // A log that installs a new root and then revokes serial 7 there
  function FirstRevocation(d: Suite, root: Authority): (log: seq<Command>)
    ensures |log| == 2
  {
    [CAInit(Some(ExportedSnapshot(d, root, map[]))), CARevoke(Some("7"))]
  }

  // A node that applies two entries at these times
  function AppliedAt(first: Time, second: Time): (h: History)
    ensures Applied(h) == 2
  {
    var begun := Step(Fresh, first);
    assert Applied(begun) == 1;
    Step(begun, second)
  }

  // Two fresh nodes apply this log at different times and end in different states.
  lemma {:induction false} NodesPart(d: Suite, root: Authority, made: Time, now: Time, other: Time)
    requires RoundTrips(d) && Coherent(d, root) && now != other
    ensures
      var log := FirstRevocation(d, root);
      var s, t := StateOf(d, log, AppliedAt(made, now)), StateOf(d, log, AppliedAt(made, other));
      && s.root == Some(ExportedSnapshot(d, root, map["7" := now]))
      && t.root == Some(ExportedSnapshot(d, root, map["7" := other]))
      && s != t
  {
    PartedState(d, root, made, now);
    PartedState(d, root, made, other);
    assert map["7" := now]["7"] != map["7" := other]["7"];
  }

  lemma {:induction false} PartedState(d: Suite, root: Authority, made: Time, now: Time)
    requires RoundTrips(d) && Coherent(d, root)
    ensures StateOf(d, FirstRevocation(d, root), AppliedAt(made, now))
         == State(map[], Some(ExportedSnapshot(d, root, map["7" := now])), map[])
  {
    var log, begun := FirstRevocation(d, root), Step(Fresh, made);
    var before := State(map[], Some(ExportedSnapshot(d, root, map[])), map[]);
    ExportRestores(d, root, map[]);
    assert TrimSpace("7") == "7";
    hide TrimSpace, RestoreFault, RestoredAuthority, Coherent, RoundTrips;
    assert RevokeRoot(d, before.root.value, "7", now) == Ok(ExportedSnapshot(d, root, map["7" := now]));
    hide RevokeRoot;
    assert StateOf(d, log, Fresh) == EMPTY && Applied(begun) == 1;
    assert StateOf(d, log, begun) == before;
    assert StateOf(d, log, AppliedAt(made, now)) == Apply(d, before, log[1], now).0;
  }

  // ---------- Replaying an overlapping part of the log ----------

  // What a block of entries does, whatever state it starts from: the last write to each key and
  // intermediate, the last re-initialisation, and the serials revoked after it
  datatype Effect = Effect(
    keys: map<string, Option<KeyEntry>>, intermediates: map<string, Snapshot>,
    reset: Option<TimelessRoot>, revoked: set<string>)

  const NOTHING := Effect(map[], map[], None, {})

  // The effect of one more entry
  function Absorb(f: Effect, c: Command): Effect {
    match c
    case GenerateKey(Some(e)) => f.(keys := f.keys[e.keyID := Some(e)])
    case DeleteKey(Some(id)) => f.(keys := f.keys[id := None])
    case CAInit(Some(snap)) => f.(reset := Some(EraseRoot(snap)), revoked := {})
    case CARevoke(Some(serial)) =>
      if TrimSpace(serial) == "" then f else f.(revoked := f.revoked + {TrimSpace(serial)})
    case CAIntermediate(Some(sub)) => f.(intermediates := f.intermediates[sub.0 := sub.1])
    case _ => f
  }

  function Summary(block: seq<Command>): Effect
    decreases |block|
  {
    if block == [] then NOTHING else Absorb(Summary(block[..|block| - 1]), block[|block| - 1])
  }

  function Overwrite(keys: map<string, KeyEntry>, writes: map<string, Option<KeyEntry>>): map<string, KeyEntry> {
    map id | id in keys.Keys + writes.Keys && (id in writes ==> writes[id].Some?) ::
      if id in writes then writes[id].value else keys[id]
  }

  function RevokeAll(d: Suite, r: Option<TimelessRoot>, serials: set<string>): Option<TimelessRoot> {
    if r.None? || serials == {} || RestoreFault(d, r.value.certificate, r.value.privKey).Some? then r
    else Some(Normal(d, r.value, serials))
  }

  function Act(d: Suite, f: Effect, s: Timeless): Timeless {
    Timeless(
      Overwrite(s.keys, f.keys),
      RevokeAll(d, if f.reset.Some? then f.reset else s.root, f.revoked),
      s.intermediates + f.intermediates)
  }

  // A normalised root restores, and normalising it again only adds serials.
  lemma {:induction false} NormalAgain(d: Suite, r: TimelessRoot, first: set<string>, more: set<string>)
    requires RoundTrips(d) && RestoreFault(d, r.certificate, r.privKey).None?
    ensures var n := Normal(d, r, first);
            RestoreFault(d, n.certificate, n.privKey).None? && Normal(d, n, more) == Normal(d, r, first + more)
  {
    var a := RestoredAuthority(d, r.certificate, r.privKey);
    assert d.untext(d.text(d.skBytes(a.sk))) == Some(d.skBytes(a.sk));
    assert d.parseSk(d.skBytes(a.sk)) == Some(a.sk);
    var had := if r.revoked.None? then {} else r.revoked.value;
    assert (had + first) + more == had + (first + more);
  }

  lemma {:induction false} OverwriteStep(
    keys: map<string, KeyEntry>, writes: map<string, Option<KeyEntry>>, id: string, e: KeyEntry)
    ensures Overwrite(keys, writes[id := Some(e)]) == Overwrite(keys, writes)[id := e]
    ensures Overwrite(keys, writes[id := None]) == Overwrite(keys, writes) - {id}
  {}

  lemma {:induction false} RevokeAllStep(d: Suite, r: Option<TimelessRoot>, serials: set<string>, t: string)
    requires RoundTrips(d) && r.Some?
    ensures var p := RevokeAll(d, r, serials);
            && p.Some?
            && RestoreFault(d, p.value.certificate, p.value.privKey)
               == RestoreFault(d, r.value.certificate, r.value.privKey)
            && (RestoreFault(d, r.value.certificate, r.value.privKey).None? ==>
                  RevokeAll(d, r, serials + {t}) == Some(Normal(d, p.value, {t})))
  {
    if RestoreFault(d, r.value.certificate, r.value.privKey).None? {
      if serials == {} {
        assert serials + {t} == {t};
      } else {
        NormalAgain(d, r.value, serials, {t});
      }
    }
  }

  // Absorbing an entry into the effect agrees with applying it after the effect.
  lemma {:induction false} AbsorbSound(d: Suite, f: Effect, s: Timeless, c: Command)
    requires RoundTrips(d)
    ensures Act(d, Absorb(f, c), s) == TimelessApply(d, Act(d, f, s), c).0
  {
    hide Overwrite, TrimSpace, Normal, RestoreFault;
    match c
    case GenerateKey(Some(e)) =>
      OverwriteStep(s.keys, f.keys, e.keyID, e);
    case DeleteKey(Some(id)) =>
      OverwriteStep(s.keys, f.keys, id, KeyEntry("", "", [], []));
    case CARevoke(Some(serial)) =>
      var r := if f.reset.Some? then f.reset else s.root;
      if r.Some? {
        RevokeAllStep(d, r, f.revoked, TrimSpace(serial));
      }
    case CAIntermediate(Some(sub)) =>
      assert s.intermediates + f.intermediates[sub.0 := sub.1] == (s.intermediates + f.intermediates)[sub.0 := sub.1];
    case _ =>
  }

  lemma {:induction false} RunIsSummary(d: Suite, s: Timeless, block: seq<Command>)
    requires RoundTrips(d)
    ensures TimelessRun(d, s, block) == Act(d, Summary(block), s)
    decreases |block|
  {
    if block == [] {
      assert Overwrite(s.keys, map[]) == s.keys;
      assert s.intermediates + map[] == s.intermediates;
    } else {
      RunIsSummary(d, s, block[..|block| - 1]);
      AbsorbSound(d, Summary(block[..|block| - 1]), s, block[|block| - 1]);
    }
  }

  lemma {:induction false} ActTwice(d: Suite, f: Effect, s: Timeless)
    requires RoundTrips(d)
    ensures Act(d, f, Act(d, f, s)) == Act(d, f, s)
  {
    var t := Act(d, f, s);
    assert Overwrite(Overwrite(s.keys, f.keys), f.keys) == Overwrite(s.keys, f.keys);
    assert (s.intermediates + f.intermediates) + f.intermediates == s.intermediates + f.intermediates;
    if f.reset.None? && s.root.Some? && f.revoked != {} {
      if RestoreFault(d, s.root.value.certificate, s.root.value.privKey).None? {
        NormalAgain(d, s.root.value, f.revoked, f.revoked);
        assert f.revoked + f.revoked == f.revoked;
      }
    }
  }

  function Run(d: Suite, s: State, log: seq<Command>, clock: nat -> Time): State
    decreases |log|
  {
    if log == [] then s
    else Apply(d, Run(d, s, log[..|log| - 1], clock), log[|log| - 1], clock(|log| - 1)).0
  }

  lemma {:induction false} RunErases(d: Suite, s: State, log: seq<Command>, clock: nat -> Time)
    ensures Erase(Run(d, s, log, clock)) == TimelessRun(d, Erase(s), log)
    decreases |log|
  {
    if log != [] {
      RunErases(d, s, log[..|log| - 1], clock);
      ApplyErases(d, Run(d, s, log[..|log| - 1], clock), log[|log| - 1], clock(|log| - 1));
    }
  }

  lemma {:induction false} TimelessRunConcat(d: Suite, s: Timeless, a: seq<Command>, b: seq<Command>)
    ensures TimelessRun(d, s, a + b) == TimelessRun(d, TimelessRun(d, s, a), b)
    decreases |b|
  {
    if b == [] {
      assert a + b == a;
    } else {
      assert (a + b)[..|a + b| - 1] == a + b[..|b| - 1];
      TimelessRunConcat(d, s, a, b[..|b| - 1]);
    }
  }

  // Applying a block a second time, at other times, changes nothing but revocation times.
  lemma {:induction false} BlockTwice(d: Suite, s: State, block: seq<Command>, first: nat -> Time, second: nat -> Time)
    requires RoundTrips(d)
    ensures Erase(Run(d, Run(d, s, block, first), block, second)) == Erase(Run(d, s, block, first))
  {
    RunErases(d, s, block, first);
    RunErases(d, Run(d, s, block, first), block, second);
    RunIsSummary(d, Erase(s), block);
    RunIsSummary(d, TimelessRun(d, Erase(s), block), block);
    ActTwice(d, Summary(block), Erase(s));
  }

  // A node that reflects the first m entries and replays from entry i, at or before m, ends where
  // a node that applied every entry once ends, up to revocation times.
  lemma {:induction false} OverlappingReplay(d: Suite, s: State, log: seq<Command>, i: nat, m: nat,
                                             once: nat -> Time, prefix: nat -> Time, replay: nat -> Time)
    requires RoundTrips(d) && i <= m <= |log|
    ensures Erase(Run(d, Run(d, s, log[..m], prefix), log[i..], replay)) == Erase(Run(d, s, log, once))
  {
    var a, b, c := log[..i], log[i..m], log[m..];
    assert log[..m] == a + b && log[i..] == b + c && log == (a + b) + c;
    var e := Erase(s);
    RunErases(d, s, log[..m], prefix);
    RunErases(d, Run(d, s, log[..m], prefix), log[i..], replay);
    RunErases(d, s, log, once);
    TimelessRunConcat(d, e, a, b);
    TimelessRunConcat(d, TimelessRun(d, e, a + b), b, c);
    TimelessRunConcat(d, e, a + b, c);
    var t := TimelessRun(d, e, a);
    RunIsSummary(d, t, b);
    RunIsSummary(d, TimelessRun(d, t, b), b);
    ActTwice(d, Summary(b), t);
  }

  // ---------- Revoking through the CAs that readers get ----------

  // What becomes of a stored snapshot when a reader revokes at the CA restored from it
  function SharedRevoke(d: Suite, snap: Snapshot, serial: string, now: Time): Snapshot {
    if RestoreFault(d, snap.certificate, snap.privKey).Some? || snap.revoked.None? then snap
    else snap.(revoked := Some(Revoke(snap.revoked.value, serial, now)))
  }

  // The snapshot restores and holds a map, in which the serial is new.
  predicate Reaches(d: Suite, snap: Snapshot, serial: string) {
    && RestoreFault(d, snap.certificate, snap.privKey).None? && snap.revoked.Some?
    && TrimSpace(serial) != "" && TrimSpace(serial) !in snap.revoked.value
  }

  lemma {:induction false} SharedRevokeExactly(d: Suite, snap: Snapshot, serial: string, now: Time)
    ensures SharedRevoke(d, snap, serial, now) == snap <==> !Reaches(d, snap, serial)
    ensures EraseRoot(SharedRevoke(d, snap, serial, now)) == EraseRoot(snap) <==> !Reaches(d, snap, serial)
  {
    if Reaches(d, snap, serial) {
      var t, after := TrimSpace(serial), SharedRevoke(d, snap, serial, now);
      hide TrimSpace, RestoreFault;
      assert t in after.revoked.value;
      assert t in EraseRoot(after).revoked.value && t !in EraseRoot(snap).revoked.value;
    }
  }

  // The CA that CARoot hands out
  function ReaderRevokes(d: Suite, s: State, serial: string, now: Time): State {
    if s.root.None? then s else s.(root := Some(SharedRevoke(d, s.root.value, serial, now)))
  }

  predicate ReachesState(d: Suite, s: State, serial: string) {
    s.root.Some? && Reaches(d, s.root.value, serial)
  }

  // The CA that CAIntermediate hands out for an ID
  function SubReaderRevokes(d: Suite, s: State, id: string, serial: string, now: Time): State {
    if id !in s.intermediates then s
    else s.(intermediates := s.intermediates[id := SharedRevoke(d, s.intermediates[id], serial, now)])
  }

  predicate ReachesSub(d: Suite, s: State, id: string, serial: string) {
    id in s.intermediates && Reaches(d, s.intermediates[id], serial)
  }

  // Such a revocation leaves the replicated state alone, and leaves it alone up to times, exactly when it does
  // not reach it. Otherwise the node has left its replicas without any log entry.
  lemma {:induction false} ReaderRevokesExactly(d: Suite, s: State, serial: string, now: Time)
    ensures ReaderRevokes(d, s, serial, now) == s <==> !ReachesState(d, s, serial)
    ensures Erase(ReaderRevokes(d, s, serial, now)) == Erase(s) <==> !ReachesState(d, s, serial)
  {
    if s.root.Some? {
      SharedRevokeExactly(d, s.root.value, serial, now);
      hide SharedRevoke, Reaches, EraseRoot;
    }
  }

  // The same for an intermediate.
  lemma {:induction false} SubReaderRevokesExactly(d: Suite, s: State, id: string, serial: string, now: Time)
    ensures SubReaderRevokes(d, s, id, serial, now) == s <==> !ReachesSub(d, s, id, serial)
    ensures Erase(SubReaderRevokes(d, s, id, serial, now)) == Erase(s) <==> !ReachesSub(d, s, id, serial)
  {
    if id in s.intermediates {
      SharedRevokeExactly(d, s.intermediates[id], serial, now);
      hide SharedRevoke, Reaches;
      var snap := SharedRevoke(d, s.intermediates[id], serial, now);
      assert s.intermediates[id := snap][id] == snap;
      if snap == s.intermediates[id] {
        assert s.intermediates[id := snap] == s.intermediates;
      }
    }
  }

  lemma {:induction false} BlankRevocation(serial: string)
    ensures TrimSpace(serial) == "" ==> forall revoked, now :: Revoke(revoked, serial, now) == revoked
  {}

  // ---------- The machine itself ----------

  predicate Separate(subs: map<string, SnapshotRef>) {
    forall a, b :: a in subs && b in subs && a != b && subs[a].revoked != null ==> subs[a].revoked != subs[b].revoked
  }

  class FSM {
    var keys: map<string, KeyEntry>
    var root: Option<SnapshotRef>
    var intermediates: map<string, SnapshotRef>

    // The revocation maps that the state holds references to
    ghost function RootCells(): set<object>
      reads this
    {
      if root.None? then {} else root.value.Cells()
    }

    ghost function SubCells(): set<object>
      reads this
    {
      set id | id in intermediates && intermediates[id].revoked != null :: intermediates[id].revoked
    }

    // Revoking at the root must not reach into an intermediate's revocation map, nor revoking at an intermediate
    // into another's.
    ghost predicate Valid()
      reads this
    {
      RootCells() !! SubCells() && Separate(intermediates)
    }

    ghost function Contents(): State
      reads this, RootCells(), SubCells()
    {
      State(keys,
            if root.None? then None else Some(root.value.Value()),
            SubValues())
    }

    function SubValues(): (m: map<string, Snapshot>)
      reads this, set id | id in intermediates && intermediates[id].revoked != null :: intermediates[id].revoked
      ensures m.Keys == intermediates.Keys
    {
      map id | id in intermediates :: intermediates[id].Value()
    }

    constructor ()
      ensures Valid() && Contents() == EMPTY
      ensures RootCells() == {} && SubCells() == {}
    {
      keys, root, intermediates := map[], None, map[];
    }

    // Decoding allocates a map of its own for every snapshot.
    static method Decode(s: Snapshot) returns (r: SnapshotRef)
      ensures r.Value() == s
      ensures r.revoked != null ==> fresh(r.revoked)
    {
      var cell: TimeMap? := null;
      if s.revoked.Some? {
        cell := new TimeMap(s.revoked.value);
      }
      r := SnapshotRef(s.version, s.certificate, s.privKey, cell);
    }

    static method DecodeAll(source: map<string, Snapshot>) returns (subs: map<string, SnapshotRef>)
      ensures subs.Keys == source.Keys
      ensures forall id :: id in subs ==> subs[id].Value() == source[id]
      ensures forall id :: id in subs && subs[id].revoked != null ==> fresh(subs[id].revoked)
      ensures Separate(subs)
    {
      subs := map[];
      var todo := source.Keys;
      while todo != {}
        invariant todo <= source.Keys && subs.Keys == source.Keys - todo
        invariant forall id :: id in subs ==> subs[id].Value() == source[id]
        invariant forall id :: id in subs && subs[id].revoked != null ==> fresh(subs[id].revoked)
        invariant Separate(subs)
        decreases todo
      {
        var id :| id in todo;
        var s := Decode(source[id]);
        subs := subs[id := s];
        todo := todo - {id};
      }
    }

    method ApplyEntry(d: Suite, c: Command, now: Time) returns (r: Option<Failure>)
      requires Valid()
      modifies this, RootCells()
      ensures Valid()
      ensures (Contents(), r) == Apply(d, old(Contents()), c, now)
      ensures fresh(RootCells() + SubCells() - old(RootCells() + SubCells()))
    {
      Unchanging(d, Contents(), c, now);
      hide Apply;
      match c
      case Undecodable => r := Some(Failure.BadEncoding);
      case UnknownOp(_) => r := Some(BadOp);
      case GenerateKey(e) => r := ApplyGenerateKey(d, e, now);
      case DeleteKey(id) => r := ApplyDeleteKey(d, id, now);
      case CAInit(snap) => r := ApplyCAInit(d, snap, now);
      case CASign => r := None;
      case CARevoke(serial) => r := ApplyCARevoke(d, serial, now);
      case CAIntermediate(sub) => r := ApplyCAIntermediate(d, sub, now);
    }

    method ApplyGenerateKey(d: Suite, e: Option<KeyEntry>, now: Time) returns (r: Option<Failure>)
      requires Valid()
      modifies this`keys
      ensures Valid()
      ensures (Contents(), r) == Apply(d, old(Contents()), GenerateKey(e), now)
    {
      if e.None? {
        return Some(BadPayload);
      }
      keys := keys[e.value.keyID := e.value];
      assert SubValues() == old(SubValues());
      return None;
    }

    method ApplyDeleteKey(d: Suite, id: Option<string>, now: Time) returns (r: Option<Failure>)
      requires Valid()
      modifies this`keys
      ensures Valid()
      ensures (Contents(), r) == Apply(d, old(Contents()), DeleteKey(id), now)
    {
      if id.None? {
        return Some(BadPayload);
      }
      keys := keys - {id.value};
      assert SubValues() == old(SubValues());
      return None;
    }

    method ApplyCAInit(d: Suite, snap: Option<Snapshot>, now: Time) returns (r: Option<Failure>)
      requires Valid()
      modifies this`root
      ensures Valid()
      ensures (Contents(), r) == Apply(d, old(Contents()), CAInit(snap), now)
      ensures fresh(RootCells() - old(RootCells()))
    {
      if snap.None? {
        return Some(BadPayload);
      }
      var s := Decode(snap.value);
      root := Some(s);
      assert SubValues() == old(SubValues());
      return None;
    }

    // Restore, revoke and export again; the restored CA writes into the map of the snapshot.
    static method RevokeSnapshot(d: Suite, root: SnapshotRef, serial: string, now: Time)
      returns (r: Result<SnapshotRef, Failure>)
      modifies root.Cells()
      ensures r.Ok? ==> r.value.revoked != null && fresh(r.value.revoked)
      ensures r.Ok? ==> RevokeRoot(d, old(root.Value()), serial, now) == Ok(r.value.Value())
      ensures r.Err? ==> RevokeRoot(d, old(root.Value()), serial, now) == Err(r.error)
      ensures r.Err? ==> root.Value() == old(root.Value())
    {
      BlankRevocation(serial);
      hide RestoreFault, RestoredAuthority, TrimSpace, Revoke, Verdict, Blank;
      var ca := CA.Restore(d, root);
      if ca.Err? {
        return Err(CannotRestore(ca.error));
      }
      var failed := ca.value.RevokeSerial(serial, now);
      if failed.Some? {
        return Err(EmptyRevocation);
      }
      var snap := ca.value.Export(d);
      return Ok(snap);
    }

    method ApplyCARevoke(d: Suite, serial: Option<string>, now: Time) returns (r: Option<Failure>)
      requires Valid()
      modifies this`root, RootCells()
      ensures Valid()
      ensures (Contents(), r) == Apply(d, old(Contents()), CARevoke(serial), now)
      ensures fresh(RootCells() - old(RootCells()))
    {
      hide RevokeRoot;
      if serial.None? {
        return Some(BadPayload);
      }
      if root.None? {
        return Some(NotInitialised);
      }
      var snap := RevokeSnapshot(d, root.value, serial.value, now);
      assert SubValues() == old(SubValues());
      if snap.Err? {
        return Some(snap.error);
      }
      root := Some(snap.value);
      assert SubValues() == old(SubValues());
      return None;
    }

    method StoreIntermediate(id: string, s: SnapshotRef)
      requires Valid() && s.Cells() !! RootCells() + SubCells()
      modifies this`intermediates
      ensures Valid()
      ensures SubCells() <= old(SubCells()) + s.Cells()
      ensures SubValues() == old(SubValues())[id := s.Value()]
    {
      intermediates := intermediates[id := s];
    }

    method ApplyCAIntermediate(d: Suite, sub: Option<(string, Snapshot)>, now: Time) returns (r: Option<Failure>)
      requires Valid()
      modifies this`intermediates
      ensures Valid()
      ensures (Contents(), r) == Apply(d, old(Contents()), Command.CAIntermediate(sub), now)
      ensures fresh(SubCells() - old(SubCells()))
    {
      hide RestoreFault, RestoredAuthority, TrimSpace, ExportedSnapshot;
      if sub.None? {
        return Some(BadPayload);
      }
      var s := Decode(sub.value.1);
      StoreIntermediate(sub.value.0, s);
      return None;
    }

    method TakeSnapshot() returns (i: Image)
      ensures i == Persist(Contents())
    {
      i := Image(Some(keys), if root.None? then None else Some(root.value.Value()), Some(SubValues()));
    }

    // None is an image that does not decode.
    method RestoreImage(i: Option<Image>) returns (r: Option<Failure>)
      requires Valid()
      modifies this
      ensures Valid()
      ensures r == if i.None? then Some(Failure.BadEncoding) else None
      ensures Contents() == if i.None? then old(Contents()) else Install(i.value)
      ensures i.Some? ==> fresh(RootCells() + SubCells())
    {
      if i.None? {
        return Some(Failure.BadEncoding);
      }
      var newRoot: Option<SnapshotRef> := None;
      if i.value.root.Some? {
        var s := Decode(i.value.root.value);
        newRoot := Some(s);
      }
      var source := if i.value.intermediates.None? then map[] else i.value.intermediates.value;
      var subs := DecodeAll(source);
      keys := if i.value.keys.None? then map[] else i.value.keys.value;
      root := newRoot;
      intermediates := subs;
      assert SubValues() == source;
      return None;
    }

    // Revoking at a CA that was restored from a stored snapshot
    static method RevokeAtRestored(d: Suite, snap: SnapshotRef, ca: CA, serial: string, now: Time)
      requires RestoreFault(d, snap.certificate, snap.privKey).None?
      requires snap.revoked != null ==> ca.revoked == snap.revoked
      modifies ca.revoked
      ensures snap.Value() == SharedRevoke(d, old(snap.Value()), serial, now)
    {
      hide RestoreFault, TrimSpace, Revoke, Verdict, Blank;
      var failed := ca.RevokeSerial(serial, now);
    }

    // A reader of CARoot revokes at the CA it got.
    method RevokeAtReader(d: Suite, serial: string, now: Time)
      requires Valid()
      modifies RootCells()
      ensures Valid()
      ensures Contents() == ReaderRevokes(d, old(Contents()), serial, now)
    {
      hide RestoreFault, RestoredAuthority, Revoke;
      var ca := CARoot(d);
      if ca.Ok? && ca.value.Some? {
        RevokeAtRestored(d, root.value, ca.value.value, serial, now);
      }
      assert SubValues() == old(SubValues());
    }

    // A reader of CAIntermediate revokes at the CA it got.
    method RevokeAtSubReader(d: Suite, id: string, serial: string, now: Time)
      requires Valid()
      modifies SubCells()
      ensures Valid()
      ensures Contents() == SubReaderRevokes(d, old(Contents()), id, serial, now)
    {
      hide RestoreFault, RestoredAuthority, Revoke;
      var ca := CAIntermediate(d, id);
      if ca.Ok? && ca.value.Some? {
        RevokeAtSub(d, id, ca.value.value, serial, now);
        hide SharedRevoke;
      } else {
        assert SubValues() == old(SubValues());
        assert id in intermediates ==> SubValues()[id := SubValues()[id]] == SubValues();
      }
    }

    method RevokeAtSub(d: Suite, id: string, ca: CA, serial: string, now: Time)
      requires Valid() && id in intermediates && ca.revoked !in RootCells()
      requires RestoreFault(d, intermediates[id].certificate, intermediates[id].privKey).None?
      requires if intermediates[id].revoked != null then ca.revoked == intermediates[id].revoked
               else ca.revoked !in SubCells()
      modifies ca.revoked
      ensures SubValues() == old(SubValues())[id := SharedRevoke(d, old(SubValues())[id], serial, now)]
    {
      RevokeAtRestored(d, intermediates[id], ca, serial, now);
      hide SharedRevoke, RestoreFault;
      assert forall k :: k in intermediates && k != id ==> intermediates[k].revoked != ca.revoked;
    }

    // The CA restored from a stored snapshot
    static method RestoreStored(d: Suite, snap: SnapshotRef) returns (r: Result<Option<CA>, RestoreError>)
      ensures r != Ok(None)
      ensures r.Err? <==> RestoreFault(d, snap.certificate, snap.privKey).Some?
      ensures r.Err? ==> RestoreFault(d, snap.certificate, snap.privKey) == Some(r.error)
      ensures r.Ok? ==> r.value.value.id == RestoredAuthority(d, snap.certificate, snap.privKey)
      ensures r.Ok? && snap.revoked != null ==> r.value.value.revoked == snap.revoked
      ensures r.Ok? && snap.revoked == null ==> fresh(r.value.value.revoked) && r.value.value.revoked.m == map[]
    {
      var ca := CA.Restore(d, snap);
      if ca.Err? {
        return Err(ca.error);
      }
      return Ok(Some(ca.value));
    }

    // Like CARoot, for the intermediate with this serial
    method CAIntermediate(d: Suite, id: string) returns (r: Result<Option<CA>, RestoreError>)
      ensures id !in intermediates ==> r == Ok(None)
      ensures id in intermediates ==>
        var snap := intermediates[id];
        && r != Ok(None)
        && (r.Err? <==> RestoreFault(d, snap.certificate, snap.privKey).Some?)
        && (r.Err? ==> RestoreFault(d, snap.certificate, snap.privKey) == Some(r.error))
        && (r.Ok? ==> r.value.value.id == RestoredAuthority(d, snap.certificate, snap.privKey))
        && (r.Ok? && snap.revoked != null ==> r.value.value.revoked == snap.revoked)
        && (r.Ok? && snap.revoked == null ==> fresh(r.value.value.revoked) && r.value.value.revoked.m == map[])
    {
      if id !in intermediates {
        return Ok(None);
      }
      r := RestoreStored(d, intermediates[id]);
    }

    // The root CA handed to readers shares its revocation map with the replicated state, unless
    // that map is nil: a revocation made through it is one that no log entry accounts for.
    method CARoot(d: Suite) returns (r: Result<Option<CA>, RestoreError>)
      ensures root.None? ==> r == Ok(None)
      ensures root.Some? ==>
        var snap := root.value;
        && r != Ok(None)
        && (r.Err? <==> RestoreFault(d, snap.certificate, snap.privKey).Some?)
        && (r.Err? ==> RestoreFault(d, snap.certificate, snap.privKey) == Some(r.error))
        && (r.Ok? ==> r.value.value.id == RestoredAuthority(d, snap.certificate, snap.privKey))
        && (r.Ok? && snap.revoked != null ==> r.value.value.revoked == snap.revoked)
        && (r.Ok? && snap.revoked == null ==> fresh(r.value.value.revoked) && r.value.value.revoked.m == map[])
    {
      if root.None? {
        return Ok(None);
      }
      r := RestoreStored(d, root.value);
    }
  }
}
