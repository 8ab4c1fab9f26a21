// The audit log: a hash chain of signed entries, and what its verifier accepts.
module Audit {
  import opened Common

  // The fields that the entry hash covers
  datatype Fields = Fields(
    sequence: int, timestamp: int, service: string, actor: string, action: string,
    result: string, resource: string, prevHash: string)

  datatype Entry = Entry(fields: Fields, hash: string, signature: string)

  // SHA-256 in hex of the canonical JSON of the fields, the hex hash of the genesis label,
  // and ML-DSA signing and verifying under the logger's key pair with hex signatures
  datatype Suite = Suite(
    hash: Fields -> string, genesis: string,
    sign: string -> Option<string>, verify: (string, string) -> bool)

  ghost predicate CollisionFree(d: Suite) {
    && (forall a, b :: d.hash(a) == d.hash(b) ==> a == b)
    && (forall a :: d.hash(a) != d.genesis)
  }

  ghost predicate SignaturesVerify(d: Suite) {
    forall m :: d.sign(m).Some? ==> d.verify(m, d.sign(m).value)
  }

  // No presented signature is forged: the logger's key has signed only the hashes in the log.
  ghost predicate NothingForged(d: Suite, entries: seq<Entry>, log: seq<Entry>) {
    forall i :: 0 <= i < |entries| && d.verify(entries[i].hash, entries[i].signature) ==>
      exists j :: 0 <= j < |log| && log[j].hash == entries[i].hash
  }

  // ---------- Logging ----------

  datatype Call = Call(actor: string, action: string, result: string, resource: string, timestamp: int)

  // The hash that the entry at position i must chain to
  function HashBefore(d: Suite, log: seq<Entry>, i: nat): string
    requires i <= |log|
  {
    if i == 0 then d.genesis else log[i - 1].hash
  }

  function NextFields(d: Suite, service: string, log: seq<Entry>, c: Call): Fields {
    Fields(|log| % UINT64, c.timestamp, service, c.actor, c.action, c.result, c.resource, HashBefore(d, log, |log|))
  }

  // One call of Log; a call whose signing fails leaves the log as it was.
  function Append(d: Suite, service: string, log: seq<Entry>, c: Call): seq<Entry> {
    var f := NextFields(d, service, log, c);
    var sig := d.sign(d.hash(f));
    if sig.None? then log else log + [Entry(f, d.hash(f), sig.value)]
  }

  function Logged(d: Suite, service: string, calls: seq<Call>): seq<Entry>
    decreases |calls|
  {
    if calls == [] then []
    else Append(d, service, Logged(d, service, calls[..|calls| - 1]), calls[|calls| - 1])
  }

  // What a call leaves behind: one more entry that holds the position, the time, the caller's words and the hash of
  // the entry before, with its own hash and a signature on that; or nothing when signing fails.
  predicate Recorded(d: Suite, service: string, log: seq<Entry>, c: Call, after: seq<Entry>) {
    if after == log then true
    else
      && |after| == |log| + 1 && after[..|log|] == log
      && var e := after[|log|];
         && e.fields.sequence == |log| % 0x1_0000_0000_0000_0000 && e.fields.timestamp == c.timestamp
         && e.fields.service == service && e.fields.actor == c.actor && e.fields.action == c.action
         && e.fields.result == c.result && e.fields.resource == c.resource
         && e.fields.prevHash == (if log == [] then d.genesis else log[|log| - 1].hash)
         && e.hash == d.hash(e.fields) && d.sign(e.hash) == Some(e.signature)
  }

  lemma {:induction false} AppendRecords(d: Suite, service: string, log: seq<Entry>, c: Call)
    ensures Recorded(d, service, log, c, Append(d, service, log, c))
    ensures (forall m :: d.sign(m).Some?) ==> |Append(d, service, log, c)| == |log| + 1
  {
    var f := NextFields(d, service, log, c);
    assert d.sign(d.hash(f)).Some? ==> (log + [Entry(f, d.hash(f), d.sign(d.hash(f)).value)])[..|log|] == log;
  }

  // ---------- Verifying ----------

  datatype Fault = ChainBroken | HashMismatch | InvalidSignature

  function EntryFault(d: Suite, e: Entry, prevHash: string): Option<Fault> {
    if e.fields.prevHash != prevHash then Some(ChainBroken)
    else if d.hash(e.fields) != e.hash then Some(HashMismatch)
    else if !d.verify(e.hash, e.signature) then Some(InvalidSignature)
    else None
  }

  function FaultAt(d: Suite, entries: seq<Entry>, i: nat): Option<Fault>
    requires i < |entries|
  {
    EntryFault(d, entries[i], HashBefore(d, entries, i))
  }

  // Which fault is reported: the first of the three that an entry has
  lemma {:induction false} FaultExactly(d: Suite, e: Entry, prevHash: string)
    ensures
      var f := EntryFault(d, e, prevHash);
      && (f == Some(ChainBroken) <==> e.fields.prevHash != prevHash)
      && (f == Some(HashMismatch) <==> e.fields.prevHash == prevHash && d.hash(e.fields) != e.hash)
      && (f == Some(InvalidSignature) <==>
            e.fields.prevHash == prevHash && d.hash(e.fields) == e.hash && !d.verify(e.hash, e.signature))
  {}

  predicate AcceptedUpTo(d: Suite, entries: seq<Entry>, n: nat)
    requires n <= |entries|
  {
    forall i :: 0 <= i < n ==> FaultAt(d, entries, i).None?
  }

  predicate Accepted(d: Suite, entries: seq<Entry>) {
    AcceptedUpTo(d, entries, |entries|)
  }

  datatype IntegrityResult = IntegrityResult(valid: bool, entries: nat, brokenAt: Option<(nat, Fault)>)

  class Logger {
    const d: Suite
    const service: string
    var entries: seq<Entry>
    var prevHash: string

    ghost predicate Valid()
      reads this
    {
      prevHash == HashBefore(d, entries, |entries|)
    }

    constructor (d: Suite, service: string)
      ensures Valid() && entries == [] && this.d == d && this.service == service
    {
      this.d, this.service := d, service;
      entries, prevHash := [], d.genesis;
    }

    method Log(c: Call) returns (ok: bool)
      requires Valid()
      modifies this
      ensures Valid()
      ensures entries == Append(d, service, old(entries), c)
      ensures ok <==> |entries| == |old(entries)| + 1
      ensures Recorded(d, service, old(entries), c, entries)
    {
      AppendRecords(d, service, entries, c);
      var f := Fields(|entries| % UINT64, c.timestamp, service, c.actor, c.action, c.result, c.resource, prevHash);
      var hash := d.hash(f);
      var sig := d.sign(hash);
      if sig.None? {
        return false;
      }
      entries := entries + [Entry(f, hash, sig.value)];
      prevHash := hash;
      return true;
    }

    // Valid exactly when every entry passes; otherwise it names the first one that does not.
    method VerifyChain() returns (r: IntegrityResult)
      ensures r.valid <==> Accepted(d, entries)
      ensures r.entries == |entries|
      ensures r.valid <==> r.brokenAt.None?
      ensures r.brokenAt.Some? ==>
        var at := r.brokenAt.value.0;
        at < |entries| && AcceptedUpTo(d, entries, at)
        && FaultAt(d, entries, at) == Some(r.brokenAt.value.1)
    {
      var n := |entries|;
      if n == 0 {
        return IntegrityResult(true, 0, None);
      }
      var prev := d.genesis;
      for i := 0 to n
        invariant prev == HashBefore(d, entries, i)
        invariant AcceptedUpTo(d, entries, i)
      {
        var e := entries[i];
        ghost var fault := FaultAt(d, entries, i);
        if e.fields.prevHash != prev {
          return IntegrityResult(false, n, Some((i, ChainBroken)));
        }
        if d.hash(e.fields) != e.hash {
          return IntegrityResult(false, n, Some((i, HashMismatch)));
        }
        if !d.verify(e.hash, e.signature) {
          return IntegrityResult(false, n, Some((i, InvalidSignature)));
        }
        prev := e.hash;
      }
      return IntegrityResult(true, n, None);
    }
  }

  // ---------- Completeness ----------

  lemma {:induction false} LoggedIsAccepted(d: Suite, service: string, calls: seq<Call>)
    requires SignaturesVerify(d)
    ensures Accepted(d, Logged(d, service, calls))
    decreases |calls|
  {
    if calls != [] {
      var before, log := Logged(d, service, calls[..|calls| - 1]), Logged(d, service, calls);
      LoggedIsAccepted(d, service, calls[..|calls| - 1]);
      forall i | 0 <= i < |log|
        ensures FaultAt(d, log, i).None?
      {
        if i < |before| {
          assert FaultAt(d, before, i).None?;
        }
      }
    }
  }

  // ---------- Soundness ----------

  // entries repeat the beginning of the log, except perhaps in their signatures.
  predicate PrefixUpToSignature(entries: seq<Entry>, log: seq<Entry>) {
    |entries| <= |log| &&
    forall i :: 0 <= i < |entries| ==> entries[i].fields == log[i].fields && entries[i].hash == log[i].hash
  }

  lemma {:induction false} Chained(d: Suite, a: seq<Entry>, i: nat)
    requires CollisionFree(d) && Accepted(d, a) && i < |a|
    ensures a[i].hash == d.hash(a[i].fields) && a[i].hash != d.genesis
    ensures a[i].fields.prevHash == HashBefore(d, a, i)
  {
    assert FaultAt(d, a, i).None?;
  }

  // In accepted chains equal hashes sit at equal positions.
  lemma {:induction false} HashFixesPosition(d: Suite, a: seq<Entry>, i: nat, b: seq<Entry>, j: nat)
    requires CollisionFree(d) && Accepted(d, a) && Accepted(d, b)
    requires i < |a| && j < |b| && a[i].hash == b[j].hash
    ensures i == j && a[i].fields == b[j].fields
    decreases i
  {
    Chained(d, a, i);
    Chained(d, b, j);
    hide Accepted;
    if i > 0 {
      Chained(d, a, i - 1);
    }
    if j > 0 {
      Chained(d, b, j - 1);
    }
    if i > 0 && j > 0 {
      HashFixesPosition(d, a, i - 1, b, j - 1);
    }
  }

  predicate SignaturesHold(d: Suite, entries: seq<Entry>) {
    forall i :: 0 <= i < |entries| ==> d.verify(entries[i].hash, entries[i].signature)
  }

  // An adversary may present any entries at all. The verifier accepts exactly those that repeat a
  // prefix of the honest log under signatures that verify.
  lemma {:induction false} AcceptedIffHonestPrefix(d: Suite, service: string, calls: seq<Call>, entries: seq<Entry>)
    requires CollisionFree(d) && SignaturesVerify(d) && NothingForged(d, entries, Logged(d, service, calls))
    ensures Accepted(d, entries) <==>
              PrefixUpToSignature(entries, Logged(d, service, calls)) && SignaturesHold(d, entries)
  {
    var log := Logged(d, service, calls);
    LoggedIsAccepted(d, service, calls);
    hide Logged;
    if Accepted(d, entries) {
      AcceptedIsPrefix(d, log, entries);
    }
    if PrefixUpToSignature(entries, log) && SignaturesHold(d, entries) {
      PrefixIsAccepted(d, log, entries);
    }
  }

  lemma {:induction false} AcceptedEntry(d: Suite, log: seq<Entry>, entries: seq<Entry>, i: nat)
    requires CollisionFree(d) && NothingForged(d, entries, log)
    requires Accepted(d, log) && Accepted(d, entries) && i < |entries|
    ensures i < |log| && entries[i].fields == log[i].fields && entries[i].hash == log[i].hash
    ensures d.verify(entries[i].hash, entries[i].signature)
  {
    assert FaultAt(d, entries, i).None?;
    var j :| 0 <= j < |log| && log[j].hash == entries[i].hash;
    HashFixesPosition(d, entries, i, log, j);
  }

  lemma {:induction false} AcceptedIsPrefix(d: Suite, log: seq<Entry>, entries: seq<Entry>)
    requires CollisionFree(d) && NothingForged(d, entries, log) && Accepted(d, log) && Accepted(d, entries)
    ensures PrefixUpToSignature(entries, log) && SignaturesHold(d, entries)
  {
    hide Accepted, CollisionFree, NothingForged;
    if entries != [] {
      AcceptedEntry(d, log, entries, |entries| - 1);
    }
    forall i | 0 <= i < |entries|
      ensures entries[i].fields == log[i].fields && entries[i].hash == log[i].hash
      ensures d.verify(entries[i].hash, entries[i].signature)
    {
      AcceptedEntry(d, log, entries, i);
    }
  }

  lemma {:induction false} PrefixIsAccepted(d: Suite, log: seq<Entry>, entries: seq<Entry>)
    requires Accepted(d, log) && PrefixUpToSignature(entries, log) && SignaturesHold(d, entries)
    ensures Accepted(d, entries)
  {
    forall i | 0 <= i < |entries|
      ensures FaultAt(d, entries, i).None?
    {
      assert FaultAt(d, log, i).None?;
    }
  }

  // Altering any covered field of any logged entry is detected, whatever else is adjusted.
  lemma {:induction false} TamperingDetected(d: Suite, service: string, calls: seq<Call>, entries: seq<Entry>, at: nat)
    requires CollisionFree(d) && SignaturesVerify(d) && NothingForged(d, entries, Logged(d, service, calls))
    requires at < |entries| && at < |Logged(d, service, calls)|
    requires entries[at].fields != Logged(d, service, calls)[at].fields
    ensures !Accepted(d, entries)
  {
    AcceptedIffHonestPrefix(d, service, calls, entries);
  }
}
