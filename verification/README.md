# Verified models of QuantumShield

This project models, in Dafny, the parts of QuantumShield whose guarantees span many calls: secret
sharing, the certificate authority and its chains, the replicated state machine, the audit log, hybrid
decryption with its replay cache, the secure channel, the rate limiter, token revocation, threshold
approval, the key store and the encrypted CA file. `dafny verify dfyconfig.toml` checks all of it.

| file | models |
|---|---|
| `GF256.dfy`, `Polynomials.dfy`, `Vault.dfy` | `internal/vault/vault.go` |
| `CertAuthority.dfy`, `CertChain.dfy` | `internal/ca/ca.go` |
| `Cluster.dfy` | `internal/cluster/fsm.go`, `internal/cluster/command.go` |
| `Audit.dfy` | `internal/audit/audit.go` |
| `Hybrid.dfy` | `internal/hybrid/hybrid.go` |
| `Channel.dfy` | `internal/channel/channel.go` |
| `RateLimit.dfy` | the rate limiter of `pkg/middleware/middleware.go` |
| `Auth.dfy` | issuing, verification and revocation in `internal/auth/auth.go` |
| `Threshold.dfy` | `internal/threshold/threshold.go` |
| `Keystore.dfy` | `internal/keystore/keystore.go` |
| `CAStore.dfy` | `internal/castore/castore.go` |
| `Common.dfy` | shared types, and big-endian encodings |

## How the models are built

Code that changes things step by step is a method, with the loops of the original, on a class where the
original has a struct whose methods update it. Each such method is proved equal to a specification
function of the old state. The theorems are lemmas about those functions over every run, every history
or everything an adversary may present.

Cryptography, base64 and JSON enter as function-valued fields of a `Suite`. What a theorem assumes of
them stands in its `requires` under a name:

- they work: `Correct`, `RoundTrips`, `JsonRoundTrips`, `SignaturesVerify`, `Consistent` (two decoders read
  the same JSON fields), `FixedSizes` (only encodings of the fixed lengths parse), `ImplicitRejection` (a
  ciphertext for another key decapsulates to another secret);
- different inputs give different outputs: `CollisionFree`, `CollisionFreeOn` (on the inputs that `Covers`
  names), `EncodingInjective`, `LabelsSeparate`, `SecretsSeparate`;
- nothing is forged: `Authentic` (under one key and nonce only sealings open), and `NotForged`,
  `NothingForged`, `SignatureNotForged`, `NeverForged` (what an adversary *presents* verifies, or opens, only
  if the key's holder made it);
- about the callers: `SealedOnce` (all senders seal once under each encapsulation), `UniqueIDs` (no two
  issued tokens share an ID), `OnlyTokens` (only issued tokens are revoked), `AllHarmless` and
  `AllowedHarmless` (no revoked string shortens an entry), `Monotone` clocks.

Assumptions about forging speak of the presented data only, so they hold together with "every signature
made verifies" and "every sealing opens". Clocks and random values are inputs. A write to disk is one
step that happens or fails. Where no such assumption is needed none is made: replica agreement, the rate
limiter's decisions, the replay distance, the coordinator's rounds and the key store's numbering hold for
any cryptography at all.

## Where code and documentation differ

The models follow the code.

- `internal/vault/vault.go:48` and `internal/vault/vault.go:53` allow n up to 255, and
  `internal/vault/vault.go:74` calls the indices "all distinct and non-zero". They are so exactly up to
  n = 127 (`Vault.IndexBound`); `Vault.RoundTripBound` shows that 127 is also exactly where "any k
  shards give back the secret" ends.
- `internal/vault/vault.go:233` speaks of seven iterations; there are six and a final squaring.
- `internal/channel/channel.go:150` says that the nonce is always unique per sequence number. It is
  unique exactly modulo 2^32 (`Channel.NonceCollision`, and over runs `Channel.KeyNonceReuse`).
- `internal/channel/channel.go:116-118` describes `Open` as rejecting bad messages. One that passes the
  sequence check and then fails to decrypt still moves `recvMax`: `Channel.FailedOpenExactly` says when
  a failed Open changes nothing, `Channel.FailedOpenBlocks` gives the input.
- `internal/channel/channel.go:32` says that both sides end with matching key pairs. The response covers
  neither the ephemeral key nor the initiator (`internal/channel/channel.go:396-403`):
  `Channel.ForeignResponseCompletes` gives the input, `Channel.MatchingExactly` the condition.
- `internal/cluster/fsm.go:56` demands determinism. `Cluster.DeterministicExactly` says exactly when an
  entry is deterministic, `Cluster.NodesPart` gives two nodes that part, because `Revoke` reads the
  local clock. Up to revocation times all nodes agree (`Cluster.ReplicasAgree`).
- `internal/cluster/fsm.go:42` says that all mutations arrive through Apply. The CAs handed out by
  `CARoot` and `CAIntermediate` share their revocation maps with the replicated state unless those are
  nil: `Cluster.FSM.RevokeAtReader` and `Cluster.FSM.RevokeAtSubReader` show mutations without a log
  entry, `Cluster.ReaderRevokesExactly` and `Cluster.SubReaderRevokesExactly` say exactly when revoking
  at either is none.
- `internal/hybrid/hybrid.go:130-138` promises that replays are bounded by the window and the cache.
  That holds for one message. A KEM ciphertext under which its sender seals a second, later message is
  accepted again: `Hybrid.SealedTwiceAcceptedTwice` gives the input, `Hybrid.ReplayWindowExactly` the
  condition. The largest int64 maxAge has no upper end, because ages saturate there.
- `internal/auth/auth.go:271` says that revoking twice is a no-op. It overwrites the stored expiry with
  the one in the presented, unverified payload and rewrites the file: `Auth.RevokeAgainExactly` says
  when that changes nothing.
- `internal/auth/auth.go:269` says that Verify fails after Revoke. When a later revocation, or a load of
  the file (`internal/auth/auth.go:319-325`), replaces the entry by one with a shorter expiry, the next
  prune drops it and the token verifies again: `Auth.ShorterExpiryReopens` and `Auth.LoadReopens` give the
  inputs, `Auth.LastsExactly` and `Auth.LastsOnDiskExactly` say exactly when a revocation lasts.
- `internal/threshold/threshold.go:6-7` calls a message authorised only when at least M signers sign.
  The M that Verify uses is the one in the presented bundle: `Threshold.EmptyBundleAccepted` gives the
  input, `Threshold.ApprovalProvesExactly` the condition for a verifier with an M of its own.
- `internal/ca/ca.go:446` promises to reject control-character serials. Exactly the blank ones are
  rejected (`CertAuthority.BlankExactly`); `CertAuthority.ControlCharacterListed` gives the input.

## Model

| member | source | states |
|---|---|---|
| GF256.GfMul | internal/vault/vault.go:212-226 | eight branchless passes compute the field product |
| GF256.GfInv | internal/vault/vault.go:234-247 | the square-and-multiply loop computes the 254th power |
| GF256.MulIsFipsProduct | internal/vault/vault.go:190-226 | the product is the one and only remainder of the carry-less product modulo x^8+x^4+x^3+x+1, as section 4.2 of FIPS 197 defines it (both directions) |
| GF256.RemainderUnique | internal/vault/vault.go:37-38 | that remainder is well defined: two remainders of one polynomial are equal |
| GF256.MulComm | internal/vault/vault.go:212-226 | multiplication of any two bytes commutes |
| GF256.MulAssoc | internal/vault/vault.go:212-226 | multiplication is associative |
| GF256.MulAdd | internal/vault/vault.go:212-226 | multiplication distributes over XOR on both sides |
| GF256.FrobeniusHomomorphic | internal/vault/vault.go:228-247 | squaring is additive and multiplicative |
| GF256.FermatLittle | internal/vault/vault.go:229 | every byte is its own 256th power |
| GF256.InvCorrect | internal/vault/vault.go:228-247 | every non-zero byte times its inverse is one |
| GF256.NoZeroDivisors | internal/vault/vault.go:190-226 | a product is zero only if a factor is |
| Polynomials.DivideLinear | internal/vault/vault.go:58-59 | every polynomial is its value at r plus (x-r) times a quotient |
| Polynomials.InterpolantUnique | internal/vault/vault.go:140-159 | polynomials with k coefficients that agree at k distinct points are equal |
| Polynomials.InterpolantExists | internal/vault/vault.go:57-59 | through any values at distinct points goes a polynomial with that many coefficients |
| Polynomials.WeightNonZero | internal/vault/vault.go:143-155 | no Lagrange weight at zero vanishes |
| Polynomials.WeightsSumToOne | internal/vault/vault.go:143-155 | the Lagrange weights at zero add up to one |
| Polynomials.LagrangeAtZero | internal/vault/vault.go:140-159 | interpolating k values of a polynomial of degree below k at zero gives its constant term |
| Common.BigEndianCongruence | internal/channel/channel.go:154-160 | big-endian encodings in n bytes coincide exactly for numbers congruent modulo 256^n |
| Common.BigEndianDecodes | internal/channel/channel.go:154-160 | decoding the encoding of a number gives it back modulo 256^n, and every element is a byte |
| Vault.Split | internal/vault/vault.go:49-95 | succeeds exactly for good parameters, with shard i holding, at every byte, the value of that byte's polynomial at the i-th index, and the keyed checksum |
| Vault.ShardContents | internal/vault/vault.go:76-92 | shard i has the index 2(i+1) modulo 256, at every byte the value of the polynomial with that byte's coefficients, and a checksum keyed by the secret over index and value |
| Vault.ChecksumLayout | internal/vault/vault.go:257-271 | the key hashes label and secret, the checksum covers first the index and then the value |
| Vault.Horner | internal/vault/vault.go:81-86 | the coefficient loop evaluates the polynomial |
| Vault.LagrangeWeight | internal/vault/vault.go:144-155 | the inner loop computes the weight of a shard from the other indices |
| Vault.InterpolateByte | internal/vault/vault.go:141-159 | one pass gives the Lagrange sum at zero, or panics exactly when a shard is too short |
| Vault.Reconstruct | internal/vault/vault.go:109-186 | the whole call, every error and its order included, is the specification |
| Vault.ReconstructionExplained | internal/vault/vault.go:109-186 | each error is reported exactly for, or only with, its fault, a structural one at the first bad shard |
| Vault.StructureSound | internal/vault/vault.go:117-127 | the structural check passes exactly when the indices are distinct and non-zero |
| Vault.IndexBound | internal/vault/vault.go:73-77 | the n indices are distinct and non-zero if and only if n is at most 127 |
| Vault.RoundTripExactly | internal/vault/vault.go:47-186 | for n up to 255, any list of at least k dealt shards gives back the secret if and only if its indices are distinct and non-zero |
| Vault.RoundTrip | internal/vault/vault.go:47-186 | for n up to 127, every list of at least k different dealt shards gives back exactly the secret, whatever the random coefficients and the order |
| Vault.RoundTripBound | internal/vault/vault.go:53-77 | every choice of at least k positions gives back the secret if and only if n is at most 127 |
| Vault.AllShardsRefused | internal/vault/vault.go:53-125 | from n = 128 on, handing back all shards fails |
| Vault.EverySecretOneWay | internal/vault/vault.go:57-86 | for any k-1 distinct non-zero indices and any bytes at them, each secret is explained by one and only one choice of coefficient rows |
| Vault.TamperedCandidate | internal/vault/vault.go:141-177 | altering any interpolated byte of one active shard changes the candidate secret |
| Vault.AlteredValueShows | internal/vault/vault.go:142-158 | changing one value changes the Lagrange sum |
| Vault.GenuineChecksumPinsSecret | internal/vault/vault.go:161-185 | if reconstruction of any list succeeds and one shard carries a checksum made by Split, the result is the secret, and every such shard is unaltered |
| CertAuthority.CA.Init | internal/ca/ca.go:136-171 | fails exactly on an empty subject; the root is a self-issued CA certificate with the given serial, valid ten years from the current second, that carries the CA's own key and verifies under it; its list is empty |
| CertAuthority.CA.Issue | internal/ca/ca.go:184-218 | fails exactly on empty arguments; the leaf is no CA certificate, carries the presented key with its type, the subject and the issuer's name, is valid from the current second for the asked time or a year, and this CA verifies it exactly inside that window while its serial is not listed |
| CertAuthority.CA.IssueIntermediate | internal/ca/ca.go:230-272 | fails exactly on an empty subject; the subordinate has a list of its own and a CA certificate that names the issuer, carries the new key, is valid from the current second for the asked time or ten years, and verifies under the issuer's key |
| CertAuthority.NewAuthorityGood | internal/ca/ca.go:559-572 | a CA made with a new key carries that key in its certificate, under the signer's verifying signature |
| CertAuthority.VerdictExplained | internal/ca/ca.go:395-438 | which error of Verify goes with which fault |
| CertAuthority.RestoreExplained | internal/ca/ca.go:526-548 | which error of Restore goes with which fault |
| CertAuthority.CA.RevokeSerial | internal/ca/ca.go:445-460 | a revoked serial keeps its first time, and no certificate with it verifies at any time |
| CertAuthority.TrimExactly | internal/ca/ca.go:448-457 | trimming takes a blank piece off either end and leaves nothing more to take off |
| CertAuthority.SpacesExactly | internal/ca/ca.go:448 | the code points that count as white space |
| CertAuthority.PaddedRevocation | internal/ca/ca.go:445-460 | revoking a serial with any white space around it makes every certificate with that serial fail at all times, keeps the time of the first revocation, and leaves all other serials alone |
| CertAuthority.BlankExactly | internal/ca/ca.go:446-451 | exactly the serials of nothing but white space are refused |
| CertAuthority.ControlCharacterListed | internal/ca/ca.go:446-451 | the failing input: a control character is listed like any serial |
| CertAuthority.CA.Export | internal/ca/ca.go:505-522 | version 1, and a fresh copy of the revocation map |
| CertAuthority.CA.Restore | internal/ca/ca.go:526-555 | fails exactly on the five listed faults; the CA shares the snapshot's map unless that is nil |
| CertAuthority.ExportRestores | internal/ca/ca.go:505-555 | a snapshot of a CA restores to the same keys and certificate |
| CertChain.VerifyChain | internal/ca/ca.go:291-338 | the two loops compute the verdict on the whole chain, with the clock read anew for each link |
| CertChain.AcceptedChainExactly | internal/ca/ca.go:274-338 | a chain is accepted if and only if the anchor is a live self-issued CA certificate that its own key verifies, every member is present and a CA certificate, and every link passes at its reading of the clock; of the end certificate nothing more is asked |
| CertChain.LinkExactly | internal/ca/ca.go:340-386 | a link passes if and only if both windows are open, the names fit and the signature verifies under the key in the signer's certificate; errors name the first that fails |
| CertChain.RefusalExplained | internal/ca/ca.go:291-338 | every refusal names the first thing that is wrong, and where |
| CertChain.MembersSound | internal/ca/ca.go:305-312 | the first loop passes exactly when every member is present and a CA certificate |
| CertChain.LinksSound | internal/ca/ca.go:330-337 | the second loop passes exactly when every link does |
| CertChain.RunInv | internal/ca/ca.go:136-272 | over every history of issuing, all that CA keys signed is logged, delegations name CA keys, and leaf certificates are no CA certificates |
| CertChain.AuthoritiesLogged | internal/ca/ca.go:136-272 | every CA of a history has its certificate in the log, under the key that signed it |
| CertChain.LeafLogged | internal/ca/ca.go:184-218 | issuing a leaf logs it, field by field as asked, and changes nothing else |
| CertChain.ChainSound | internal/ca/ca.go:274-386 | after any history, whatever other keys signed, an accepted certificate was issued by the CA key its direct signer carries, and each member was delegated link by link from the root |
| CertChain.OutsidersRejected | internal/ca/ca.go:274-386 | no certificate outside the history is accepted, so holders of leaf keys cannot issue |
| CertChain.AcceptedLinksAlive | internal/ca/ca.go:297-364 | acceptance means that at every link names fit and both certificates were in their windows when it was looked at, under a live self-issued CA anchor |
| CertChain.VerifyExactly | internal/ca/ca.go:388-438 | after any history, CA.Verify accepts a presented certificate if and only if this CA's key issued it as a leaf under this CA's name, it is in its window and its serial is not revoked |
| CertChain.ChainComplete | internal/ca/ca.go:230-338 | at any depth of nesting, a leaf verifies with the collected certificates while the clock is inside all windows |
| CertChain.SignedByLastVerifies | internal/ca/ca.go:230-338 | whatever the last CA of a line of any depth signs under its own name verifies with the collected chain inside all windows |
| CertChain.IntermediateVerifies | internal/ca/ca.go:230-338 | so does an intermediate's own certificate |
| Cluster.FSM.ApplyEntry | internal/cluster/fsm.go:57-82 | applying an entry on the heap is the state function, outcome included, and intermediates stay separate from the root |
| Cluster.FSM.ApplyGenerateKey | internal/cluster/fsm.go:121-133 | stores the entry under its ID |
| Cluster.FSM.ApplyDeleteKey | internal/cluster/fsm.go:135-142 | removes the ID |
| Cluster.FSM.ApplyCAInit | internal/cluster/fsm.go:144-155 | replaces the root by the snapshot |
| Cluster.FSM.RevokeSnapshot | internal/cluster/fsm.go:173-184 | the three calls on a stored snapshot, whose map the restored CA writes into, amount to one revocation; on an error the snapshot is as before |
| Cluster.FSM.ApplyCARevoke | internal/cluster/fsm.go:165-187 | restore, revoke and export have the effect of one revocation, although the restored CA writes into the stored map |
| Cluster.FSM.ApplyCAIntermediate | internal/cluster/fsm.go:189-200 | stores the snapshot under its serial |
| Cluster.FSM.DecodeAll | internal/cluster/fsm.go:102-111 | decoding gives every snapshot a map of its own, shared with no other |
| Cluster.FSM.TakeSnapshot | internal/cluster/fsm.go:85-95 | the image is the state |
| Cluster.FSM.RestoreImage | internal/cluster/fsm.go:99-117 | the state becomes the image, missing maps becoming empty; an undecodable image changes nothing |
| Cluster.SnapshotRoundTrip | internal/cluster/fsm.go:85-117 | restoring a snapshot gives exactly the state it was taken of, revocation times included |
| Cluster.EntryEffect | internal/cluster/fsm.go:57-200 | what a successful entry changes, and that a failed one changes nothing |
| Cluster.RevocationEffect | internal/cluster/fsm.go:165-187 | a revocation with any white space around the serial enters it with the time of its first revocation and keeps the other entries, the certificate and the keys |
| Cluster.FailureExactly | internal/cluster/fsm.go:57-200 | exactly when each entry fails, and with which error |
| Cluster.FSM.CARoot | internal/cluster/fsm.go:239-247 | the CA handed out shares the state's revocation map unless that is nil |
| Cluster.FSM.RevokeAtReader | internal/cluster/fsm.go:237-247 | revoking at the CA handed out enters the serial into the replicated state, unless the stored map is nil |
| Cluster.ReaderRevokesExactly | internal/cluster/fsm.go:237-247 | such a revocation leaves the state alone, and leaves it alone up to times, if and only if the root does not restore, its map is nil, or the trimmed serial is empty or already listed |
| Cluster.FSM.CAIntermediate | internal/cluster/fsm.go:249-258 | the CA handed out shares the stored intermediate's revocation map unless that is nil |
| Cluster.FSM.RevokeAtSubReader | internal/cluster/fsm.go:249-258 | revoking at that CA enters the serial into that stored intermediate and into nothing else |
| Cluster.SubReaderRevokesExactly | internal/cluster/fsm.go:249-258 | it leaves the state alone, and leaves it alone up to times, if and only if there is no such intermediate, it does not restore, its map is nil, or the trimmed serial is empty or already listed |
| Cluster.ApplyErases | internal/cluster/fsm.go:55-82 | up to revocation times, applying an entry and its outcome do not depend on the clock |
| Cluster.DeterministicExactly | internal/cluster/fsm.go:55-56 | two clocks give one result, times included, if and only if they agree or the entry is no revocation of a new serial at a restorable root |
| Cluster.NodesPart | internal/cluster/fsm.go:165-187 | the failing input: two fresh nodes apply one log of two entries at different times and end in different states |
| Cluster.ApplyTwice | internal/cluster/fsm.go:55-56 | an entry applied a second time at once, at any time, changes nothing at all, revocation times included |
| Cluster.HistoryErases | internal/cluster/fsm.go:57-117 | a node's state, by whatever mixture of applying and restoring, depends only on the prefix of the log it reflects |
| Cluster.AbsorbSound | internal/cluster/fsm.go:119-200 | extending the summary of a block by one entry agrees with applying the entry after it |
| Cluster.ReplicasAgree | internal/cluster/fsm.go:55-117 | two nodes that reflect the same prefix agree up to revocation times and give the next entry the same outcome |
| Cluster.RunIsSummary | internal/cluster/fsm.go:119-200 | a block of entries acts on every state as its summary: last writes, last re-initialisation, serials revoked since |
| Cluster.ActTwice | internal/cluster/fsm.go:55-56 | a summary acting a second time changes nothing |
| Cluster.BlockTwice | internal/cluster/fsm.go:55-56 | applying any block twice equals applying it once, up to revocation times |
| Cluster.OverlappingReplay | internal/cluster/fsm.go:55-117 | replaying the log from any entry already reflected ends in the same state, up to revocation times |
| Audit.Logger.Log | internal/audit/audit.go:73-101 | appends one entry with the position, the time, the caller's actor, action, result and resource, chained to the last, hashed and signed; or nothing when signing fails |
| Audit.Logger.VerifyChain | internal/audit/audit.go:123-179 | valid exactly when every entry passes; otherwise names the first that does not, and why |
| Audit.AppendRecords | internal/audit/audit.go:77-99 | the same of the specification, and that an entry is always appended while signing works |
| Audit.FaultExactly | internal/audit/audit.go:136-169 | the reported fault is the first of the three that the entry has |
| Audit.LoggedIsAccepted | internal/audit/audit.go:73-179 | every log built by Log verifies |
| Audit.HashFixesPosition | internal/audit/audit.go:134-172 | in accepted chains equal hashes sit at equal positions with equal fields |
| Audit.AcceptedIffHonestPrefix | internal/audit/audit.go:119-213 | any presented entries are accepted if and only if they repeat a prefix of the honest log under verifying signatures |
| Audit.TamperingDetected | internal/audit/audit.go:119-213 | altering a covered field of a logged entry is detected, whatever else is adjusted |
| Hybrid.EncodeTimestampInjective | internal/hybrid/hybrid.go:283-289 | different timestamps have different encodings |
| Hybrid.TimestampDecodes | internal/hybrid/hybrid.go:283-289 | the eight bytes are the two's complement of the timestamp, most significant first |
| Hybrid.EncryptStamps | internal/hybrid/hybrid.go:75-124 | Encrypt fails exactly for a bad key or a zero nonce, and stamps the second in which it runs |
| Hybrid.PlaintextExactly | internal/hybrid/hybrid.go:196-241 | incomplete messages, nonces of another length and the zero nonce are refused; all else is up to decapsulation and opening with the stamp |
| Hybrid.Decrypter.Decrypt | internal/hybrid/hybrid.go:196-281 | one call is one step of the model, and keeps set and list in step |
| Hybrid.Decrypter.Recall | internal/hybrid/hybrid.go:259-274 | the critical section appends the key and evicts the oldest half when full |
| Hybrid.Decrypter.EvictOldestHalf | internal/hybrid/hybrid.go:266-271 | the loop removes exactly the oldest half from the set |
| Hybrid.RunKeepsCache | internal/hybrid/hybrid.go:258-274 | over every run the cache is a duplicate-free suffix of the accepted history, of at most 100,000 and at least min(accepted, 50,001) entries |
| Hybrid.CacheSize | internal/hybrid/hybrid.go:36-39 | at most 100,000 ciphertexts are held, and all accepted ones or at least 50,001 |
| Hybrid.TryRecords | internal/hybrid/hybrid.go:258-280 | a refused attempt changes nothing; an accepted one is remembered |
| Hybrid.ReplayDistance | internal/hybrid/hybrid.go:258-278 | at least 50,001 acceptances lie between two of one KEM ciphertext |
| Hybrid.AcceptedInWindow | internal/hybrid/hybrid.go:243-256 | with a positive maxAge nothing is accepted after creation plus maxAge, or more than a minute before creation, by a fresh decrypter either; only the largest int64 maxAge has no upper end |
| Hybrid.AcceptedExactly | internal/hybrid/hybrid.go:243-278 | an authentic message is accepted if and only if it is in its window and not in the cache, for every int64 maxAge |
| Hybrid.ReplayWindowExactly | internal/hybrid/hybrid.go:126-138 | two authentic messages of one KEM ciphertext are accepted within maxAge plus a minute of each other, in all states and at all times, if and only if they were created in the same second and maxAge is not the largest int64 |
| Hybrid.SealedTwiceAcceptedTwice | internal/hybrid/hybrid.go:236-278 | the failing input: a sender who seals twice under one encapsulation has both messages accepted, however far apart, by decrypters that do not hold the ciphertext |
| Hybrid.ReplayWindow | internal/hybrid/hybrid.go:75-138 | provided all senders seal once under each encapsulation, as Encrypt does, two acceptances of one KEM ciphertext by any decrypters lie within maxAge plus a minute |
| Hybrid.EncryptThenDecrypt | internal/hybrid/hybrid.go:75-281 | a message decrypts to what was encrypted exactly while it is in the window and not in the cache |
| Hybrid.DecryptsInTime | internal/hybrid/hybrid.go:75-281 | a message decrypts at every time from the moment it was made until a second before maxAge is over, unless the cache holds its ciphertext |
| Channel.LiveSession.SealMessage | internal/channel/channel.go:103-114 | seals under the next number |
| Channel.LiveSession.OpenMessage | internal/channel/channel.go:119-145 | the number is claimed before decryption and stays claimed when that fails |
| Channel.SealEffect | internal/channel/channel.go:103-114 | what a Seal sends, and that only the counter moves |
| Channel.ClaimExactly | internal/channel/channel.go:119-137 | a message is claimed if and only if it carries this session's nonce and a number above all claimed before; each error names its fault |
| Channel.OtherSessionRefused | internal/channel/channel.go:119-128 | a message of another session is refused and changes nothing |
| Channel.NonceLayout | internal/channel/channel.go:149-162 | eight bytes of the session nonce and the number modulo 2^32; the additional data is the whole number |
| Channel.Initiator.BeginHandshake | internal/channel/channel.go:187-222 | stores what the request was made from |
| Channel.Initiator.CompleteHandshake | internal/channel/channel.go:225-251 | fails unless begun; otherwise completes against the stored values |
| Channel.AcceptExactly | internal/channel/channel.go:271-320 | which requests are accepted, what the response holds, and which error goes with which fault |
| Channel.CompleteExactly | internal/channel/channel.go:225-251 | which responses complete, to which session, and which error goes with which fault |
| Channel.SessionDerived | internal/channel/channel.go:324-369 | the salt, the three labels and the roles of the two keys |
| Channel.TranscriptLayout | internal/channel/channel.go:386-405 | the order of what the transcripts hash |
| Channel.AadInjective | internal/channel/channel.go:158-162 | additional data tells all sequence numbers apart |
| Channel.NonceCollision | internal/channel/channel.go:149-156 | nonces coincide if and only if the numbers agree modulo 2^32 |
| Channel.SealsNumbered | internal/channel/channel.go:103-104 | in every run from fresh sessions the i-th Seal of a side carries number i, counted from one, modulo 2^64 |
| Channel.KeyNonceReuse | internal/channel/channel.go:103-156 | in every run, two Seals of a session share key and nonce if and only if one side made both and they are a multiple of 2^32 apart, the wrap of the counter included |
| Channel.EarlyNoncesUnique | internal/channel/channel.go:103-156 | in every run the first 2^32 Seals of a side never repeat a nonce, as section 8 of NIST SP 800-38D demands |
| Channel.AgreeingSidesMatch | internal/channel/channel.go:225-359 | whatever keys, signatures and messages were replaced, two sides that succeed and agree on session ID, ephemeral key and KEM ciphertext hold matching sessions |
| Channel.MatchingExactly | internal/channel/channel.go:225-359 | a response that completes matches its accepted request if and only if that request carried the initiator's session ID and ephemeral key |
| Channel.ForeignResponseCompletes | internal/channel/channel.go:225-251 | the failing input: a third party begins under the initiator's session ID with keys of its own, and its response completes to keys that do not match |
| Channel.HandshakeMatches | internal/channel/channel.go:225-359 | an undisturbed handshake succeeds on both sides and matches |
| Channel.DirectionsSeparate | internal/channel/channel.go:324-341 | the labels give the two directions different keys, if HKDF separates labels |
| Channel.TranscriptsInjective | internal/channel/channel.go:386-405 | no two signed handshake contents share a transcript hash, across the two roles either |
| Channel.NextKeepsInv | internal/channel/channel.go:103-145 | every Seal, claim and decryption keeps the delivery invariant on both sides |
| Channel.CompletedWasAccepted | internal/channel/channel.go:225-251 | completing means that the responder's key holder answered this session with this KEM ciphertext |
| Channel.AcceptedWasBegun | internal/channel/channel.go:271-320 | accepting means that the initiator's key holder began this session with this ephemeral key |
| Channel.DeliveryCorrect | internal/channel/channel.go:119-145 | over every run with drops, duplicates, reordering and concurrent Opens, claimed numbers increase and each delivered plaintext was sealed by the peer with that number and is delivered once |
| Channel.ClaimThenFinishIsOpen | internal/channel/channel.go:119-145 | claiming and deciphering at once is Open, and delivers exactly what it returns |
| Channel.SealThenOpen | internal/channel/channel.go:103-145 | without interference a sealed message opens to its plaintext |
| Channel.FailedOpenExactly | internal/channel/channel.go:116-145 | a failed Open leaves the session as it was if and only if the message failed before its number was claimed |
| Channel.FailedOpenBlocks | internal/channel/channel.go:119-145 | the failing input: a message with a high number and a ciphertext that does not open; what the peer sealed under a lower number opened before and is refused afterwards |
| RateLimit.RateLimiter.AllowRequest | pkg/middleware/middleware.go:199-226 | the eviction loop and the decision are the specification |
| RateLimit.RateLimiter.CleanupSweep | pkg/middleware/middleware.go:158-176 | exactly the idle buckets are removed, in whatever order |
| RateLimit.AllowEffect | pkg/middleware/middleware.go:199-226 | a request touches its own key only, and stores a timestamp exactly when it is granted |
| RateLimit.SweepExactly | pkg/middleware/middleware.go:164-172 | a sweep drops exactly the keys whose last grant has left the window |
| RateLimit.NextKeepsInv | pkg/middleware/middleware.go:158-226 | every request and sweep keeps the invariant, and the decision is that of the full history |
| RateLimit.RunInv | pkg/middleware/middleware.go:158-226 | over every run each bucket is the end of its key's grants and lacks only what has left the window |
| RateLimit.DecisionsExact | pkg/middleware/middleware.go:199-226 | every decision is that of a limiter that forgets nothing |
| RateLimit.DecisionsCounted | pkg/middleware/middleware.go:199-226 | a request is granted if and only if fewer than limit grants of its key lie in the closed window that ends now |
| RateLimit.SweepsInvisible | pkg/middleware/middleware.go:158-176 | leaving out all sweeps changes no decision |
| RateLimit.WindowBound | pkg/middleware/middleware.go:130-226 | no closed interval of the window's length holds more than limit grants of a key |
| Auth.SplitsAgree | internal/auth/auth.go:205-396 | splitting into at most three parts agrees with splitting at all dots when there are at most three |
| Auth.SplitExactly | internal/auth/auth.go:205 | the parts have no dots and give the string when joined again |
| Auth.SplitNExactly | internal/auth/auth.go:396 | what remains after n parts stays in the last |
| Auth.ExtractExactly | internal/auth/auth.go:395-412 | of a string with two dots or more the middle part is read, whatever its signature |
| Auth.IssueExactly | internal/auth/auth.go:146-199 | the claims carry the subject, issuer, roles and ID asked for, from the current second until ttl is over |
| Auth.VerifyExactly | internal/auth/auth.go:204-266 | which strings are accepted, and to which claims |
| Auth.ExtractMatches | internal/auth/auth.go:204-412 | for a token that verifies, Revoke reads the token ID and expiry that Verify reads |
| Auth.IssuedVerifies | internal/auth/auth.go:146-266 | an issued token verifies to claims with its subject, roles and ID exactly until ttl after its issue is over or it is revoked |
| Auth.VerifiedWasIssued | internal/auth/auth.go:204-266 | whatever string is presented, Verify returns only claims that were issued, are alive and are not revoked |
| Auth.Authority.RevokeToken | internal/auth/auth.go:272-287 | enters the presented expiry and writes the file when one is set |
| Auth.Authority.Sweep | internal/auth/auth.go:372-388 | removes exactly the entries past a positive expiry, then writes the file |
| Auth.Authority.UseRevocationFile | internal/auth/auth.go:112-327 | loads the unexpired entries over those in memory; a file that does not parse changes nothing |
| Auth.EventEffect | internal/auth/auth.go:272-388 | what a revocation, a prune, a load and a restart do to each ID, to the use of the file and to the file |
| Auth.LastsExactly | internal/auth/auth.go:249-388 | every monotone run of prunes, loads of the file and revocations of allowed strings keeps a live token out if and only if its entry outlasts it, the file's entry does so too or is past already, and no allowed string names the ID with a shorter expiry |
| Auth.LastsOnDiskExactly | internal/auth/auth.go:112-388 | with restarts, every such run that ends with the file in use keeps it out if and only if the file's entry outlasts it, so does memory's when the file is in use, and no allowed string shortens it; or the file does not parse and is never used |
| Auth.PermanentExactly | internal/auth/auth.go:371-383 | across one prune at any time, which is the special case without loads and revocations, a live token is rejected if and only if its entry in memory outlasts it |
| Auth.RevokeKeepsSafeExactly | internal/auth/auth.go:272-279 | revoking a string keeps a lasting revocation lasting if and only if it does not name the same ID with a smaller positive expiry |
| Auth.RevokeAgainExactly | internal/auth/auth.go:268-287 | revoking a listed ID again changes nothing, in memory and on disk, if and only if the presented expiry is the stored one and no write replaces a file that differs |
| Auth.ShorterExpiryReopens | internal/auth/auth.go:271-279 | the failing input: a string with the same ID and expiry 1 makes the token verify again after a prune |
| Auth.LoadReopens | internal/auth/auth.go:305-327 | the failing input: a run from the first process on in which loading a file with a shorter entry makes a revoked token verify again |
| Auth.RunKeepsHeld | internal/auth/auth.go:272-388 | over every run without restart the list keeps the token out |
| Auth.RunKeepsDurable | internal/auth/auth.go:272-388 | with its entry on disk, the file keeps the token out over every run, restarts included |
| Auth.RevocationPermanent | internal/auth/auth.go:249-388 | once Revoke returns, Verify rejects the token at every later time after any harmless revocations, prunes and loads |
| Auth.RevocationSurvivesRestart | internal/auth/auth.go:272-388 | once written, the revocation also holds across restarts, in every state that uses the file |
| Auth.TokenNamesItself | internal/auth/auth.go:272-279 | revoking an issued token enters its own expiry, so it is harmless to every token |
| Auth.TokenStaysRevoked | internal/auth/auth.go:249-388 | when only issued tokens are ever revoked, a revoked token is rejected at every later time, after any run before it and any revocations, prunes and loads after it |
| Auth.TokenStaysRevokedOnDisk | internal/auth/auth.go:272-388 | when only issued tokens are revoked, a written revocation holds across restarts too |
| Threshold.Coordinator.Create | internal/threshold/threshold.go:141-156 | refuses exactly empty messages, nonces of another length and thresholds below one |
| Threshold.Coordinator.SubmitPartial | internal/threshold/threshold.go:161-205 | one submission is one step of the round, every error included |
| Threshold.SubmitReturns | internal/threshold/threshold.go:161-205 | a submission returns the bundle as soon as there is one and ever after, and an error leaves the round as it was |
| Threshold.SubmitExactly | internal/threshold/threshold.go:165-204 | an open round accepts exactly the valid partials of new signers, completes with the one that reaches the threshold, and each error names its fault |
| Threshold.SubmitKeepsInv | internal/threshold/threshold.go:161-205 | every submission keeps the invariant of the round and its message, nonce and threshold |
| Threshold.SubmitAllKeepsInv | internal/threshold/threshold.go:161-205 | over any submissions, accepted partials are valid and from different signers, and the round is complete exactly at the threshold-th |
| Threshold.CompletedIsFinal | internal/threshold/threshold.go:165-167 | a completed round never changes |
| Threshold.CoordinatorMeetsVerifier | internal/threshold/threshold.go:161-269 | the bundle of a completed round passes the verifier if and only if the registry lists its signers with their keys |
| Threshold.HonestRoundCompletes | internal/threshold/threshold.go:161-205 | valid submissions of different signers are all accepted, up to the threshold |
| Threshold.VerdictExactly | internal/threshold/threshold.go:221-269 | the verdict is clean if and only if the bundle approves the message |
| Threshold.VerdictExplained | internal/threshold/threshold.go:221-269 | a refusal names the first thing wrong with the bundle, or the fault of the first wrong partial |
| Threshold.Verify | internal/threshold/threshold.go:221-269 | accepts exactly the bundles with enough partials, all valid, registered and from different signers, for this message |
| Threshold.BindingInjective | internal/threshold/threshold.go:288-297 | the binding hash fixes nonce and message |
| Threshold.BindingLayout | internal/threshold/threshold.go:288-297 | the binding hash covers label, nonce and message digest, in this order |
| Threshold.ApprovalMeansSigned | internal/threshold/threshold.go:216-269 | every partial of an accepted bundle is by another registered signer, who signed this nonce and message; they are at least as many as the threshold that the bundle itself carries |
| Threshold.ApprovalProvesExactly | internal/threshold/threshold.go:5-13 | for a verifier with a number of its own, an accepted bundle proves that many signers if and only if it has that many partials, and so if its threshold is no smaller |
| Threshold.EmptyBundleAccepted | internal/threshold/threshold.go:221-269 | the failing input: a bundle with threshold zero and no partials passes for every message and registry |
| Keystore.Store.PutKey | internal/keystore/keystore.go:191-234 | deactivates the old versions, appends an active one, and reports a failed write while keeping the change in memory |
| Keystore.Store.DeactivateAll | internal/keystore/keystore.go:212-215 | the loop clears every Active flag of the ID and changes nothing else |
| Keystore.Store.RotateKey | internal/keystore/keystore.go:276-300 | puts new material at the level of the last version |
| Keystore.Store.ExpireKey | internal/keystore/keystore.go:305-317 | deactivates every version |
| Keystore.Store.DeleteKey | internal/keystore/keystore.go:320-330 | removes all versions |
| Keystore.Store.GetActive | internal/keystore/keystore.go:237-252 | the backward loop finds the last usable version |
| Keystore.Store.GetVersion | internal/keystore/keystore.go:255-269 | the forward loop finds the first version with the number |
| Keystore.NextKeepsInv | internal/keystore/keystore.go:191-330 | every call and every reopening keeps the invariant |
| Keystore.RunInv | internal/keystore/keystore.go:191-330 | over every run, failed writes and reopening included, memory represents the history and the disk the last saved part of it |
| Keystore.OnlyLastActive | internal/keystore/keystore.go:206-225 | versions are numbered 1 to n and only the last can be active |
| Keystore.VersionReturnsPut | internal/keystore/keystore.go:255-269 | GetVersion returns the v-th material put since the last delete, decrypted, and fails for every other number |
| Keystore.ActiveReturnsLast | internal/keystore/keystore.go:237-252 | GetActive returns the last version if and only if it is expired neither by call nor by time |
| Keystore.PutThenActive | internal/keystore/keystore.go:191-252 | after a Put the new key is active under the next number until its ttl, or ninety days, are over; other IDs are as before |
| Keystore.RotateThenActive | internal/keystore/keystore.go:276-300 | after a Rotate the generated key is active for ninety days at the level of the last version |
| Keystore.ExpireAndDelete | internal/keystore/keystore.go:305-330 | after Expire nothing is active and everything can still be read; after Delete nothing is there |
| Keystore.ReopenAfter | internal/keystore/keystore.go:398-425 | after reopening, a written change is there and an unwritten one is not |
| Keystore.RefusalsChangeNothing | internal/keystore/keystore.go:191-330 | what is refused, and that a refusal changes nothing |
| Keystore.DecodeExplained | internal/keystore/keystore.go:357-383 | which error goes with which part of a version |
| CAStore.Copy | internal/castore/castore.go:242-245 | copying replaces one stretch of the buffer and nothing else |
| CAStore.Encrypt | internal/castore/castore.go:219-247 | the four copies leave magic, salt, nonce and ciphertext, end to end |
| CAStore.FrameLayout | internal/castore/castore.go:5-13 | magic, salt, nonce and ciphertext at their offsets, and that the last part opens to the plaintext |
| CAStore.DecryptExplained | internal/castore/castore.go:250-279 | too short, wrong magic and failed opening, each exactly for its fault |
| CAStore.DecryptExactly | internal/castore/castore.go:218-279 | decryption returns a plaintext if and only if the file is an encryption of it under the password, for some salt and nonce |
| CAStore.RestoreSnapshot | internal/ca/ca.go:526-555 | restoring a decoded snapshot gives a CA with a list of its own |
| CAStore.RestoreAll | internal/castore/castore.go:206-212 | succeeds exactly when every snapshot restores, with no revocation list shared |
| CAStore.WorldCoherent | internal/ca/ca.go:136-272 | after every history of Init and IssueIntermediate calls every CA carries its own public key in its certificate |
| CAStore.MadeIsCoherent | internal/castore/castore.go:72-112 | so every hierarchy of such CAs meets what saving and loading needs |
| CAStore.RestoredCoherent | internal/ca/ca.go:540-555 | and so does every restored CA |
| CAStore.Store.Snapshots | internal/castore/castore.go:138-157 | the payload holds the export of every CA of the store |
| CAStore.Store.Save | internal/castore/castore.go:130-170 | the file becomes the encryption of the payload, or stays as it was on every error |
| CAStore.SaveExplained | internal/castore/castore.go:130-170 | which error of Save goes with which fault |
| CAStore.Store.Load | internal/castore/castore.go:178-214 | succeeds exactly when the file decrypts, parses and restores, and names a faulty snapshot otherwise |
| CAStore.ParsedExplained | internal/castore/castore.go:178-196 | which error of Load goes with which fault, before anything is restored |
| CAStore.HierarchyComesBack | internal/ca/ca.go:505-555 | exporting and restoring any hierarchy gives back the same certificates, keys and revocations |
| CAStore.LoadAfterSave | internal/castore/castore.go:130-214 | the saved bytes parse, with the same password, to the same hierarchy |
| CAStore.SaveThenLoad | internal/castore/castore.go:21-28 | a store that is saved and loaded holds, in objects of its own, exactly what it held, so every verification has the same verdict at every time |

## Left out

- Cryptographic internals (ML-KEM, ML-DSA, AES-GCM, Argon2id, HKDF, SHA-256, HMAC) and the encodings (base64, hex, JSON): functions with stated properties. Failures of the random source, of key generation and of encoding keys are not modelled; failures of signing are, in the audit log.
- Channel.DeliveryCorrect: assumes that no forged ciphertext is presented during the run, which AES-GCM justifies only while no key and nonce repeat; `Channel.KeyNonceReuse` says when that ends.
- CAStore.DecryptExactly: says nothing about a wrong password. That decryption under another key fails is not a property of AES-GCM alone; the lemma says what acceptance means for the password given.
- A JSON null in place of a snapshot, where `internal/cluster/fsm.go` and `internal/castore/castore.go` would hold a nil pointer.
- Auth.Authority.RevokeToken: one step. Overlapping calls of `Revoke`, whose file writes can pass each other outside the lock (`internal/auth/auth.go:284-286`), are excluded. Of all calls only `Open` of a channel is split, at the release of its lock.
- RateLimit.RateLimiter.AllowRequest: one step under a monotone clock. In the source (`pkg/middleware/middleware.go:200-211`) the bucket can be dropped by a sweep between look-up and use, and the clock is read outside the bucket's lock.
- Keystore.Store.RotateKey: one step, while the source releases its lock between reading the last level and storing the new version (`internal/keystore/keystore.go:276-300`).
- Pointer identity of buckets and key versions: both are values in a map that the methods reassign. Revocation maps, which are shared in the source, are heap objects.
- Several revocation files: one file, set by `SetRevocationFile`, which survives restarts.
- Raft, HTTP, roles, HSM, FIPS probes, command line, SDK, metrics and the user interface; also signer key files, listing functions and the CRL export: they add only easy members.
- Timing, constant-time behaviour, zeroing of memory and the quality of randomness.
