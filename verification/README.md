# Pillar, modelled in Dafny

Pillar keeps the state of a cell of nodes in small in-memory machines and codecs. This project models eleven of them
and the store beneath them, and proves what they keep over whole runs or on all inputs. A machine is modelled twice:
as a class whose methods update fields as the source does, and as a step function on values. Every method is proved
equal to its step, and the theorems are about `Run`, the state after any sequence of operations. What each operation
answers, and what each field of the state holds, is also stated off the operations alone (the lemmas named `...Iff`,
`...IsHistory`, `...Replies`), so that the meaning of a run does not depend on reading the step function.

- **Cells**: membership, one sealed member set per key epoch, the rotation fence, derived decryptability, grants, the
  naming pointer. What the code stores per epoch is proved to be the history of that epoch. `Compat` is the version
  negotiation an admission may ask for.
- **Migration**: two logs, per-member views, a logical clock with a liveness timeout and a one-way cutover.
- **Ledger**: a grow-only ledger of grants with expiry, revocation and levels capped by the granter.
- **Bytes, TokenCodec, Tokens**: hex, the length-prefixed payload, the dotted text form, and the issuer with serials and
  revocation.
- **ObjectRecords, ObjectStore**: the record codec with its link list, and the content-addressed store over it.
- **Checksum, Fingerprint**: the bitwise CRC-32 of section 8 of RFC 1952, first as a theory of linear registers, then
  on 32-bit words.
- **Platform, Helm**: one log read three ways, and the template scanner.
- **Lines, Replay, Dashboards**: text-encoded events replayed in arbitrary order, refining a plain map.
- **JsonRows, JsonReader**: the row printer with the escaping of section 7 of RFC 8259, and a reader its documents go through.
- **RequestQueue**: requests to join a cell and the decisions on them.
- **CredentialPolicy**: the rules for a new password, the resource they are stored as, a history of changes.
- **Election, KeyedStore**: last-writer-wins fields over a content-addressed log, merge, and the compaction that reclaims
  space. `Election` is the theory for any operations, groups, stamps and ids; `KeyedStore` is the instance.

`dafny verify dfyconfig.toml` checks everything.

## Where the code and its documentation disagree

The model follows the code. Each of these has a lemma with a concrete input and one with the exact condition.

- A key's checksum is documented as a string distinct per id (crates/pillar-cli/src/identity_trust_cli.rs:643-645). It is
  not: `Fingerprint.FiveBytesCollide`. When two ids of any lengths collide is `Fingerprint.FingerprintsCollideIff`.
- Reading an object is documented as never partial (crates/pillar-cli/src/object_inspection.rs:441-444). A payload of 2^32
  bytes or more is stored under a truncated length and read back as its beginning: `ObjectStore.WholePayloadLost`. When a
  record comes back is `ObjectStore.PutThenLoad`, and when its payload does `ObjectStore.PublicGetIff` and
  `ObjectStore.SealedGetIff`.
- A revision's signer is documented as the one who authorized it (crates/pillar-cli/src/lib.rs:167-168). It is the last one
  to apply the identical body: `Platform.AnotherSignerShown`. When the two are the same is `Platform.SignerKeptIff`.
- A compaction and a read of the keyed store are documented never to disagree
  (crates/pillar-keyedstore/src/lib.rs:405-415 and 432-438). They break ties between equal stamps in opposite directions:
  `KeyedStore.SharedStampLosesTheValue`. When they agree is `KeyedStore.SnapshotStandsInIff` for the operation read and
  `KeyedStore.SnapshotReadsAlikeIff` for its value.
- A join request is documented as never approved by its own requester
  (crates/pillar-bootstrap/src/request.rs:245-247). No code compares the two: `RequestQueue.MemberApprovesItself`. When it
  goes through is `RequestQueue.SelfApprovalIff`.
- A policy resource falls back to the shipped value of a malformed field, and reads an age of zero as none
  (crates/pillar-cli/src/credential_policy.rs:126-132). Beyond what is said there, an age of 2^63 and more is read as none
  and a count of 2^32 and more is cut: `CredentialPolicy.HugeAgeIsNoAge`, `CredentialPolicy.HugeFloorIsNoFloor`. When a
  policy is read as written is `CredentialPolicy.ResourceRoundTripIff` and `CredentialPolicy.EditedCountIff`.
- Revocation accepts ids not yet allocated, so an elevation that succeeds need not take effect: `Ledger.BornDead`,
  `Ledger.ElevationTakesEffectIff`.

## What is assumed

- Signatures are ideal: a signature is accepted for a message only if this issuer signed that message in this run.
  Hashes are collision-free and sealing opens for its recipients only; where a cut block is spoken of, a signature covers
  one message and no beginning of a sealed body opens. These are predicates on parameters (`Correct`, `Ideal`,
  `TamperEvident`, `CollisionFree`, `Addressed`), required by the lemmas that use them and by no method.
- An operation of the keyed store is made from its payload alone, so its id is the address of the payload
  (`ContentAddressed`).
- The authority and admission deciders of the platform, event ids and clocks are parameters.
- Token serials and expiries wrap at 2^64, as a release build does. Key epochs, the migration clock, ledger ids, request
  ids and platform sequence numbers are unbounded.
- A dashboard run has at most 2^64 events. Names in the keyed store are shorter than 2^64 bytes.

## Model

| member | source | states |
|---|---|---|
| `Cells.StepKeeps` | crates/pillar-cells/src/lib.rs:237-450 | every operation keeps epochs 0 to the current one sealed, the current one to the current members; no placed object is rewritten and no past sealed set changes |
| `Cells.RefusalKeepsState` | crates/pillar-cells/src/lib.rs:237-450 | an operation that is refused leaves the whole state as it was |
| `Cells.Reachable` | crates/pillar-cells/src/lib.rs:214-450 | the consistency of keys, objects and naming holds after every run from a new cell |
| `Cells.RunAdvances` | crates/pillar-cells/src/lib.rs:237-450 | between any two moments of a run the epoch does not go back, sealed sets of past epochs are frozen, placed objects and published roots stay |
| `Cells.SealedSetIsHistory` | crates/pillar-cells/src/lib.rs:237-321 | the one set stored for an epoch equals the union of all member sets seen while it was current |
| `Cells.DecryptsIffMemberOfItsEpoch` | crates/pillar-cells/src/lib.rs:347-389 | a node decrypts a placed cell-encrypted object exactly when it was a member at some moment of the epoch the object was sealed under |
| `Cells.DecryptionSettlesWithTheEpoch` | crates/pillar-cells/src/lib.rs:285-389 | once an epoch is over, who decrypts its objects never changes; before that access is gained but never lost |
| `Cells.ForwardSecrecy` | crates/pillar-cells/src/lib.rs:285-389 | after a node leaves, in every continuation that does not admit it again, it decrypts no cell-encrypted object placed since |
| `Cells.PlacementIsOneWrite` | crates/pillar-cells/src/lib.rs:347-364 | every placed object comes from one write with the rotation fence down, and still carries that write's class, tags and epoch |
| `Cells.GrantsAreTheUnrevoked` | crates/pillar-cells/src/lib.rs:394-408 | the grants in force are exactly those added and not revoked since |
| `Cells.AccessIsGranted` | crates/pillar-cells/src/lib.rs:413-428 | read and write access is exactly what some unrevoked grant of the user confers on the object's tags; write implies read |
| `Cells.AccessIsConferred` | crates/pillar-cells/src/lib.rs:113-122 | off the operations: a grant in force gives access exactly when it covers everything or shares a tag with the step that placed the object, and writing needs a read-write one |
| `Cells.PublishedIffAnnounced` | crates/pillar-cells/src/lib.rs:434-440 | a root is published exactly when some step published it |
| `Cells.NamePtrIsLastMove` | crates/pillar-cells/src/lib.rs:444-458 | the cell name resolves to the target of the last accepted move, and unset without one |
| `Cells.FenceIff` | crates/pillar-cells/src/lib.rs:301-321 | the fence is up exactly between a rotation begun and the next one ended, read off the operations |
| `Cells.MembersIff` | crates/pillar-cells/src/lib.rs:237-297 | the members are exactly the nodes whose last admission or departure asked for with the fence down, and agreeing on versions where asked, is an admission |
| `Cells.EpochIsCount` | crates/pillar-cells/src/lib.rs:285-321 | the key epoch counts the departures of members and the completed rotations |
| `Cells.PlacedIff` | crates/pillar-cells/src/lib.rs:347-364 | an object is placed exactly when some step asked for it with the fence down |
| `Cells.FirstPlacementShows` | crates/pillar-cells/src/lib.rs:347-364 | a placed object shows class, tags and epoch of the first step that placed it |
| `Cells.DecryptsIffPromised` | crates/pillar-cells/src/lib.rs:372-389 | off the operations, for all visibility classes: public to all, cell-encrypted to whoever was inside while its epoch was open, sealed to nodes to those, sealed to cells or users to no node |
| `Cells.InsiderDecrypts` | crates/pillar-cells/src/lib.rs:347-389 | a node inside when a cell-encrypted object is placed decrypts it from then on |
| `Cells.AdmitReplies` | crates/pillar-cells/src/lib.rs:237-248 | fence error, membership error and success of an admission, each exactly when the history says so |
| `Cells.AdmitVersionedReplies` | crates/pillar-cells/src/lib.rs:268-278 | a versioned admission is refused for its first surface that does not agree, else answered as a plain one |
| `Cells.LeaveReplies` | crates/pillar-cells/src/lib.rs:285-297 | fence error, membership error and success of a departure, each exactly when the history says so |
| `Cells.RotateReplies` | crates/pillar-cells/src/lib.rs:301-321 | a rotation begins exactly with the fence down and ends exactly with it up |
| `Cells.PlaceReplies` | crates/pillar-cells/src/lib.rs:347-364 | fence error, already placed and success of a placement, each exactly when the history says so |
| `Cells.GrantReplies` | crates/pillar-cells/src/lib.rs:394-408 | adding is refused exactly for a grant in force, revoking exactly for one that is not |
| `Cells.RootReplies` | crates/pillar-cells/src/lib.rs:434-450 | publishing is refused exactly the second time, pointing exactly at a root never published |
| `Cells.Cell.constructor` | crates/pillar-cells/src/lib.rs:214-230 | a new cell is the run of no operations: epoch 0 sealed to nobody |
| `Cells.Cell.Admit` | crates/pillar-cells/src/lib.rs:237-248 | state and reply are those of an admission: fence, then membership, then a re-seal of the current epoch |
| `Cells.Cell.AdmitVersioned` | crates/pillar-cells/src/lib.rs:268-278 | negotiates every required surface first; a refusal is reported and changes nothing |
| `Cells.Cell.Leave` | crates/pillar-cells/src/lib.rs:285-297 | opens the next epoch sealed to the remaining members |
| `Cells.Cell.BeginRotate` | crates/pillar-cells/src/lib.rs:301-307 | raises the fence, refusing a second rotation |
| `Cells.Cell.EndRotate` | crates/pillar-cells/src/lib.rs:312-321 | opens the next epoch for the same members and lowers the fence |
| `Cells.Cell.PlaceObject` | crates/pillar-cells/src/lib.rs:347-364 | records class, epoch and tags once, never during a rotation |
| `Cells.Cell.AddGrant` | crates/pillar-cells/src/lib.rs:394-400 | adds a grant not yet in force |
| `Cells.Cell.RevokeGrant` | crates/pillar-cells/src/lib.rs:403-408 | removes a grant in force |
| `Cells.Cell.PublishRoot` | crates/pillar-cells/src/lib.rs:434-440 | publishes a root once |
| `Cells.Cell.SetNamePtr` | crates/pillar-cells/src/lib.rs:444-450 | points at a published root only |
| `Compat.NegotiateAll` | crates/pillar-crypto/src/compat.rs:213-235 | succeeds exactly when both sides declare every required surface within the window; otherwise reports the first surface that fails and why |
| `Migration.EveryMemberReadsEverything` | crates/pillar-cells/src/migration.rs:130-293 | in every reachable state each tracked member is served a view holding exactly the payloads appended since the start; an untracked node is served none |
| `Migration.ViewNeverGoesBack` | crates/pillar-cells/src/migration.rs:266-283 | a member served the new view is served the new view at every later moment |
| `Migration.LastSeenIsLatest` | crates/pillar-cells/src/migration.rs:121-196 | the recorded sign of life of a node is the latest one the run gave |
| `Migration.LiveIffHeardRecently` | crates/pillar-cells/src/migration.rs:203-208 | a node is live exactly when the run heard of it within the timeout |
| `Migration.ReadyIff` | crates/pillar-cells/src/migration.rs:212-234 | cutover is ready exactly when the new view is built and every live member declared |
| `Migration.CutOverIffSafe` | crates/pillar-cells/src/migration.rs:225-260 | a run has cut over exactly when some step attempted it with the view built and every tracked node heard of within the timeout declared, all read off the operations before it |
| `Migration.ClockIsGreatest` | crates/pillar-cells/src/migration.rs:192-196 | the clock stands at the greatest tick asked for |
| `Migration.SetsAreHistory` | crates/pillar-cells/src/migration.rs:121-182 | tracked, built and declared are what the run asked for: a node is declared exactly when some step declared a version of it within the window |
| `Migration.DeclareReplies` | crates/pillar-cells/src/migration.rs:173-182 | a declaration is accepted exactly within the window, else refused with both versions |
| `Migration.AliveIff` | crates/pillar-cells/src/migration.rs:203-218 | a node is live exactly when an operation named it, or it was there from the start, within the timeout |
| `Migration.ViewIsHistory` | crates/pillar-cells/src/migration.rs:266-283 | off the operations: no view untracked, the new one after the cutover or once built for a declared node, else the old one |
| `Migration.BuildAndCutReplies` | crates/pillar-cells/src/migration.rs:147-260 | a build is refused exactly once one was begun, an attempt exactly while neither cut over nor safe |
| `Migration.OldLogIff` | crates/pillar-cells/src/migration.rs:130-260 | the old log holds what was appended, less what came before the cutover |
| `Migration.SilentMembersCannotBlock` | crates/pillar-cells/src/migration.rs:173-260 | from any built state, if nobody is added and undeclared members stay silent, a clock past their last sign plus the timeout makes the attempt succeed |
| `Migration.MigrationCoordinator.constructor` | crates/pillar-cells/src/migration.rs:95-117 | the initial members seen at tick 0, nothing appended, no new view |
| `Migration.MigrationCoordinator.AddMember` | crates/pillar-cells/src/migration.rs:121-124 | tracks a member as seen now |
| `Migration.MigrationCoordinator.Append` | crates/pillar-cells/src/migration.rs:130-136 | writes the old log always and the new one once built |
| `Migration.MigrationCoordinator.BeginBuildNewView` | crates/pillar-cells/src/migration.rs:147-153 | copies the old log |
| `Migration.MigrationCoordinator.DeclareMemberVersion` | crates/pillar-cells/src/migration.rs:173-182 | a sign of life either way; the member is declared when its version lies within the window, else refused |
| `Migration.MigrationCoordinator.Heartbeat` | crates/pillar-cells/src/migration.rs:186-188 | records a sign of life |
| `Migration.MigrationCoordinator.AdvanceTime` | crates/pillar-cells/src/migration.rs:192-196 | moves the clock, never back |
| `Migration.MigrationCoordinator.AttemptCutover` | crates/pillar-cells/src/migration.rs:249-260 | cuts over in a ready state only |
| `Migration.MigrationCoordinator.ReadyForCutover` | crates/pillar-cells/src/migration.rs:225-234 | the scan over live members decides readiness |
| `Ledger.LiveMaxIsMax` | crates/pillar-cli/src/jit_elevation.rs:174-189 | effective authority is the greatest level of a live grant naming the identity, or zero |
| `Ledger.ElevationsStayBounded` | crates/pillar-cli/src/jit_elevation.rs:322-336 | the bounded-elevation check holds in every reachable ledger |
| `Ledger.AdmitsIffLive` | crates/pillar-cli/src/jit_elevation.rs:306-312 | a grant id admits exactly when the grant with that id is live |
| `Ledger.DeadStaysDead` | crates/pillar-cli/src/jit_elevation.rs:90-92 | an issued grant that no longer admits never admits again |
| `Ledger.IssueIsBacked` | crates/pillar-cli/src/jit_elevation.rs:194-295 | what an issue appends is capped by the owner or by one live grant naming the granter |
| `Ledger.GrantIsFinal` | crates/pillar-cli/src/jit_elevation.rs:274-295 | a grant once in the ledger is never rewritten |
| `Ledger.DescendsFromOwner` | crates/pillar-cli/src/jit_elevation.rs:184-295 | every grant of every reachable ledger has a finite chain of strictly earlier grants back to the owner, levels never rising, each link live when the next was issued |
| `Ledger.NoOwnerNoGrants` | crates/pillar-cli/src/jit_elevation.rs:184-272 | without an owner the ledger stays empty forever |
| `Ledger.AuthorityIsConfined` | crates/pillar-cli/src/jit_elevation.rs:167-312 | a set of identities without the owner, granted to only from inside, never raises its greatest effective authority over any stretch of a run |
| `Ledger.ElevationTakesEffectIff` | crates/pillar-cli/src/jit_elevation.rs:234-301 | a successful elevation raises the subject to its level exactly when its id had not been revoked beforehand |
| `Ledger.IssuedIff` | crates/pillar-cli/src/jit_elevation.rs:194-272 | a grant is issued exactly when its level is 1 to 8, its window open and its granter holds it, an elevation when it also raises its subject; each refusal exactly when its condition is the first to fail, with its numbers |
| `Ledger.IssueAppends` | crates/pillar-cli/src/jit_elevation.rs:194-295 | the grant appended carries the request's granter, subject, level, expiry and kind under the replied id, and nothing else changes |
| `Ledger.GrantIsAsRequested` | crates/pillar-cli/src/jit_elevation.rs:194-295 | every grant of every run carries the request of the step that issued it |
| `Ledger.RestIsHistory` | crates/pillar-cli/src/jit_elevation.rs:167-301 | an id is revoked exactly when some step named it, and the clock is the greatest tick asked for |
| `Ledger.AuthorityIsHistory` | crates/pillar-cli/src/jit_elevation.rs:184-189 | an identity holds a level exactly as the owner up to 8, or through a request issued to it, still in its window and never revoked |
| `Ledger.GrantTakesEffectIff` | crates/pillar-cli/src/jit_elevation.rs:194-295 | a fresh grant of either kind raises its subject to the greater of both levels unless its id was revoked before; nobody else changes |
| `Ledger.BornDead` | crates/pillar-cli/src/jit_elevation.rs:299-301 | revoking an id not allocated yet makes a later elevation dead at birth |
| `Ledger.AuthorityLedger.constructor` | crates/pillar-cli/src/jit_elevation.rs:149-157 | an empty ledger with an optional owner |
| `Ledger.AuthorityLedger.TickTo` | crates/pillar-cli/src/jit_elevation.rs:167-171 | the clock moves forward only |
| `Ledger.AuthorityLedger.IssueGrant` | crates/pillar-cli/src/jit_elevation.rs:194-225 | refuses a level out of range, an expiry already past or a level above the granter, in that order; else appends |
| `Ledger.AuthorityLedger.JitElevate` | crates/pillar-cli/src/jit_elevation.rs:234-272 | refuses a level out of range, an expiry already past, a level above the granter or not above the subject, in that order; else appends |
| `Ledger.AuthorityLedger.Push` | crates/pillar-cli/src/jit_elevation.rs:274-295 | appends under the next id |
| `Ledger.AuthorityLedger.Revoke` | crates/pillar-cli/src/jit_elevation.rs:299-301 | records any id as revoked |
| `Bytes.HexRoundTrip` | crates/pillar-bootstrap/src/token.rs:33-54 | hex decoding inverts encoding on every byte string |
| `Bytes.HexAccepts` | crates/pillar-bootstrap/src/token.rs:42-54 | decoding accepts exactly the even-length digit strings |
| `Bytes.HexCanonical` | crates/pillar-bootstrap/src/token.rs:33-54 | re-encoding what was accepted only lower-cases it |
| `Bytes.EncodeHex` | crates/pillar-bootstrap/src/token.rs:33-39 | the byte loop yields the two-digit lowercase encoding |
| `Bytes.DecodeHex` | crates/pillar-bootstrap/src/token.rs:42-54 | the pair loop decodes or refuses as specified |
| `Bytes.TakeFieldIff` | crates/pillar-cli/src/object_inspection.rs:69-80 | a field is taken exactly off its own length-prefixed encoding |
| `TokenCodec.DecodeIff` | crates/pillar-bootstrap/src/token.rs:66-105 | bytes decode to a payload exactly when the payload fits and encodes to those bytes |
| `TokenCodec.DecodeOfEncode` | crates/pillar-bootstrap/src/token.rs:66-105 | decoding inverts encoding exactly when both names are shorter than 2^32; oversized ones are undecodable |
| `TokenCodec.PayloadLayout` | crates/pillar-bootstrap/src/token.rs:66-77 | where serial, expiry, user and domain stand in the bytes |
| `TokenCodec.EncodePayload` | crates/pillar-bootstrap/src/token.rs:66-77 | the buffer pushes yield the encoding |
| `TokenCodec.DecodePayload` | crates/pillar-bootstrap/src/token.rs:79-105 | the cursor reader decides as the partial inverse of encoding |
| `TokenCodec.TextRoundTrip` | crates/pillar-bootstrap/src/token.rs:109-129 | the dotted text splits back into the same two parts |
| `TokenCodec.TextVariants` | crates/pillar-bootstrap/src/token.rs:109-129 | the only other texts carrying the same parts differ in the case of hex digits |
| `TokenCodec.SplitToken` | crates/pillar-bootstrap/src/token.rs:120-129 | the split at the first dot and the two hex reads |
| `Tokens.SignedIffMinted` | crates/pillar-bootstrap/src/token.rs:266-299 | the messages ever signed are exactly the encodings of minted payloads |
| `Tokens.RevokedIff` | crates/pillar-bootstrap/src/token.rs:332-336 | a serial is revoked exactly when some step revoked a text that then authenticated a payload with it |
| `Tokens.AuthenticatedIff` | crates/pillar-bootstrap/src/token.rs:120-129 | a text authenticates a payload exactly when that payload was minted in the run, fits, and is carried by the text |
| `Tokens.VerifyIff` | crates/pillar-bootstrap/src/token.rs:314-327 | verification returns a user exactly for texts carrying a payload minted earlier for that user and domain, unexpired, its serial never revoked through any variant |
| `Tokens.MintReplies` | crates/pillar-bootstrap/src/token.rs:266-299 | a mint is refused for a zero lifetime, else for a credential other than the one last registered for the user, and otherwise granted: each exactly then |
| `Tokens.MintHandsOut` | crates/pillar-bootstrap/src/token.rs:266-299 | the token is the signed payload of the next number, for the user and domain asked for, expiring at now plus ttl modulo 2^64 |
| `Tokens.EarnedInNumbers` | crates/pillar-bootstrap/src/token.rs:266-299 | the payload a request earns: the number of tokens so far and now plus ttl, both modulo 2^64, with the user and domain asked for |
| `Tokens.AcceptedIff` | crates/pillar-bootstrap/src/token.rs:266-336 | off the operations: a text is accepted for a user exactly when it carries what an earlier request earned by presenting that user's credential, for the domain, still running and never revoked |
| `Tokens.VerdictIsDeserved` | crates/pillar-bootstrap/src/token.rs:314-327 | a text carrying what a request earned is judged by it: revoked, expired, of another domain, or its user |
| `Tokens.UnknownIff` | crates/pillar-bootstrap/src/token.rs:314-327 | a text is unknown exactly when it carries nothing earned in the run |
| `Tokens.WithdrawnIff` | crates/pillar-bootstrap/src/token.rs:332-336 | a serial is revoked exactly when some step revoked a text carrying a payload earned before it under that serial |
| `Tokens.MintedTextCarries` | crates/pillar-bootstrap/src/token.rs:266-299 | the token handed out carries the minted payload, user, domain and expiry |
| `Tokens.RevocationIsolated` | crates/pillar-bootstrap/src/token.rs:314-336 | a revocation changes the verdict only on texts authenticating the same serial |
| `Tokens.OtherTokensUnaffected` | crates/pillar-bootstrap/src/token.rs:266-336 | revoking one minted token leaves the verdict on every token of another serial; one of the same serial loses it exactly when that serial was not revoked before |
| `Tokens.SerialIsMintCount` | crates/pillar-bootstrap/src/token.rs:266-299 | the serial counter is the number of mints, wrapping at 2^64 |
| `Tokens.SerialsRepeatIff` | crates/pillar-bootstrap/src/token.rs:266-299 | two mints share a serial exactly when a multiple of 2^64 mints separates them |
| `Tokens.TokenIssuer.constructor` | crates/pillar-bootstrap/src/token.rs:231-246 | a new issuer has signed and revoked nothing |
| `Tokens.TokenIssuer.RegisterUser` | crates/pillar-bootstrap/src/token.rs:251-253 | sets the credential of a user |
| `Tokens.TokenIssuer.DecodeAndVerifyToken` | crates/pillar-bootstrap/src/token.rs:120-129 | parse, signature, then payload |
| `Tokens.TokenIssuer.ForwardAndMint` | crates/pillar-bootstrap/src/token.rs:266-299 | lifetime, then credential, then a token under the next serial |
| `Tokens.TokenIssuer.VerifyToken` | crates/pillar-bootstrap/src/token.rs:314-327 | unknown, revoked, expired, wrong domain: the first that applies, else the user |
| `Tokens.TokenIssuer.Revoke` | crates/pillar-bootstrap/src/token.rs:332-336 | revokes the serial of an authentic text, ignores any other |
| `ObjectRecords.DecodeIff` | crates/pillar-cli/src/object_inspection.rs:177-223 | bytes decode to a record exactly when the record fits and the bytes start with its encoding, links in order |
| `ObjectRecords.HeadLayout` | crates/pillar-cli/src/object_inspection.rs:177-191 | version, visibility, signer, signature and author stand in this order |
| `ObjectRecords.RestLayout` | crates/pillar-cli/src/object_inspection.rs:177-191 | then the two counts, the links in order and the body |
| `ObjectRecords.DecodedIsPrefix` | crates/pillar-cli/src/object_inspection.rs:193-223 | the encoding of whatever was decoded is a prefix of the input |
| `ObjectRecords.RoundTripIff` | crates/pillar-cli/src/object_inspection.rs:177-223 | decode of encode returns the same record exactly when every length fits 32 bits |
| `ObjectRecords.DecodeCutsTheBody` | crates/pillar-cli/src/object_inspection.rs:69-80 | with the other fields in range a record always decodes, its body cut to its length modulo 2^32 |
| `ObjectRecords.EncodeRecord` | crates/pillar-cli/src/object_inspection.rs:177-191 | the buffer pushes and the link loop yield the encoding |
| `ObjectRecords.DecodeRecord` | crates/pillar-cli/src/object_inspection.rs:193-223 | the cursor reader accepts and refuses as specified |
| `ObjectRecords.ReadLinks` | crates/pillar-cli/src/object_inspection.rs:193-223 | the link loop reads the declared number of links or fails |
| `ObjectStore.PutThenLoad` | crates/pillar-cli/src/object_inspection.rs:277-352 | for a put of any lengths, in every later state, the address loads exactly the record in range whose encoding begins the block; so the authored record exactly when it fits, and the record with its body cut when only the body is too long |
| `ObjectStore.PutReplies` | crates/pillar-cli/src/object_inspection.rs:297-352 | a put is refused for the first of a bad payload, a bad link, no recipients, a bad recipient or a failed sealing, each exactly then; any other is stored |
| `ObjectStore.AuthoredRecord` | crates/pillar-cli/src/object_inspection.rs:127-164 | the record is signed over visibility, author and body, and holds the payload, or its sealing with the number of recipients, and the links |
| `ObjectStore.EnvelopeShows` | crates/pillar-cli/src/object_inspection.rs:405-455 | whoever may not open a sealed object sees its address, author, size, number of recipients and links |
| `ObjectStore.MaterialEqualIff` | crates/pillar-cli/src/object_inspection.rs:127-139 | two puts sign the same bytes exactly when visibility and author with body run together agree |
| `ObjectStore.PutThenGet` | crates/pillar-cli/src/object_inspection.rs:297-455 | after a put in range and any further puts, get returns the payload hex in lower case: to everyone for a public object, to the recipients only for a sealed one |
| `ObjectStore.ReadsTheLoaded` | crates/pillar-cli/src/object_inspection.rs:391-500 | for a put of any lengths the read verbs show the record in range whose encoding begins the block, or each reports a malformed block when there is none |
| `ObjectStore.PublicGetIff` | crates/pillar-cli/src/object_inspection.rs:405-455 | get of a public payload shows the beginning of its length modulo 2^32, so the whole exactly below 2^32 bytes |
| `ObjectStore.SealedGetIff` | crates/pillar-cli/src/object_inspection.rs:405-455 | get opens a sealed body exactly for a recipient's secret and a stored body below 2^32 bytes |
| `ObjectStore.WholePayloadLost` | crates/pillar-cli/src/object_inspection.rs:297-455 | 2^32 zero bytes put as a public object read back as nothing |
| `ObjectStore.PutThenInspect` | crates/pillar-cli/src/object_inspection.rs:391-500 | links come back in order and lower-cased in every later state however long the body; the signature verifies exactly when the body was not cut |
| `ObjectStore.Store.constructor` | crates/pillar-cli/src/object_inspection.rs:260-269 | an empty store |
| `ObjectStore.Store.DecodeHexList` | crates/pillar-cli/src/object_inspection.rs:297-352 | decodes all links or names the failure |
| `ObjectStore.Store.PutObject` | crates/pillar-cli/src/object_inspection.rs:297-352 | refuses bad hex, else stores the signed record under its address |
| `ObjectStore.Store.GetObject` | crates/pillar-cli/src/object_inspection.rs:448-455 | loads and opens, or fails as the source does |
| `Checksum.BurstDetected` | crates/pillar-cli/src/identity_trust_cli.rs:646-656 | for any invertible step, inputs that agree outside a block packing into one word end in the same register exactly when they agree inside it |
| `Checksum.CollideIff` | crates/pillar-cli/src/identity_trust_cli.rs:646-656 | for any linear step, inputs of any lengths collide exactly when the difference of their ends, run from the difference the longer one's head makes, ends in zero |
| `Fingerprint.ComputeCrc32` | crates/pillar-cli/src/identity_trust_cli.rs:646-656 | the nested loop computes the checksum of section 8 of RFC 1952 |
| `Fingerprint.BitStepLinear` | crates/pillar-cli/src/identity_trust_cli.rs:646-656 | one bit step is linear over exclusive or |
| `Fingerprint.BitStepInjective` | crates/pillar-cli/src/identity_trust_cli.rs:646-656 | one bit step loses nothing |
| `Fingerprint.FingerprintsEqualIff` | crates/pillar-cli/src/identity_trust_cli.rs:512-516 | two managed keys share a fingerprint exactly when their checksums agree |
| `Fingerprint.BurstsChangeTheFingerprint` | crates/pillar-cli/src/identity_trust_cli.rs:512-516 | ids of one length that differ only within four consecutive bytes never share a fingerprint |
| `Fingerprint.FingerprintsCollideIff` | crates/pillar-cli/src/identity_trust_cli.rs:512-516 | two managed ids of any lengths share a fingerprint exactly when the checksum of their difference, aligned at the ends, is zero from the register the longer one's head leaves; for one length from zero |
| `Fingerprint.FiveBytesCollide` | crates/pillar-cli/src/identity_trust_cli.rs:643-656 | a concrete collision of two five-byte ids: the string is not distinct per id, and four bytes is the best bound |
| `Fingerprint.CheckValue` | crates/pillar-cli/src/identity_trust_cli.rs:646-656 | the nine digits have the published check value 0xCBF43926 |
| `Fingerprint.CheckFingerprint` | crates/pillar-cli/src/identity_trust_cli.rs:512-516 | the key named by the nine digits prints as fp:cbf43926 |
| `Platform.ReadingsAgree` | crates/pillar-cli/src/lib.rs:345-421 | view, event search and history name the same last revision; view keys are exactly the keys with a history |
| `Platform.ApplyAddsOneRevision` | crates/pillar-cli/src/lib.rs:270-302 | an admitted apply puts the body in force, adds one revision and leaves every earlier event and hash and every other resource |
| `Platform.RollbackRestores` | crates/pillar-cli/src/lib.rs:400-431 | re-applying any past revision's stored body makes it current and rewrites no earlier event or hash |
| `Platform.EnvelopeIsLastSealed` | crates/pillar-cli/src/lib.rs:270-302 | the envelope stored under a hash is the one of the last admitted apply of that body |
| `Platform.PreviewReplies` | crates/pillar-cli/src/lib.rs:318-339 | refused for the schema's reason, else for an actor the authority last set does not allow, else let through under the body's hash: each exactly then |
| `Platform.AdmittedIff` | crates/pillar-cli/src/lib.rs:252-302 | an apply is recorded exactly when its body is valid and the authority in force at it allows the actor the capability |
| `Platform.EventsAreNumbered` | crates/pillar-cli/src/lib.rs:270-302 | an actor's events are numbered by the applies of theirs let through |
| `Platform.EveryRevisionRecorded` | crates/pillar-cli/src/lib.rs:400-421 | every history entry of every run comes from one apply of a valid body, authorized when it was made, whose actor authored its event |
| `Platform.SignerKeptIff` | crates/pillar-cli/src/lib.rs:400-421 | a history entry shows the signer who recorded it exactly when the last admitted apply of the identical body was by the same actor |
| `Platform.AnotherSignerShown` | crates/pillar-cli/src/lib.rs:159-172 | two actors apply one body in turn: the first entry shows the second actor as signer |
| `Platform.HistoryIsTheRun` | crates/pillar-cli/src/lib.rs:400-421 | the history lists exactly the valid and authorized applies of the resource, in order, under pairwise different events |
| `Platform.Plane.constructor` | crates/pillar-cli/src/lib.rs:214-230 | an empty plane under the given authority |
| `Platform.Plane.ReplaceAuthority` | crates/pillar-cli/src/lib.rs:245-247 | replaces the authority only |
| `Platform.Plane.ApplyManifest` | crates/pillar-cli/src/lib.rs:270-302 | refused exactly when the preview refuses, then nothing changes; else event, store and log grow as specified |
| `Platform.Plane.MaterializeView` | crates/pillar-cli/src/lib.rs:345-353 | the forward fold over the log |
| `Platform.Plane.LastEvent` | crates/pillar-cli/src/lib.rs:381-390 | the search from the end of the log |
| `Platform.Plane.Revisions` | crates/pillar-cli/src/lib.rs:400-421 | the forward filter over the log |
| `Helm.PrintOfParse` | crates/pillar-cli/src/lib.rs:631-649 | every template text is the print of one well-formed tree of literals and holes |
| `Helm.ParseOfPrint` | crates/pillar-cli/src/lib.rs:631-649 | a well-formed tree is read back from its print |
| `Helm.RenderMeaning` | crates/pillar-cli/src/lib.rs:631-649 | rendering yields the literals with values in place, or names the first hole without a value, or the opening never closed; exactly which, for every template |
| `Helm.RenderText` | crates/pillar-cli/src/lib.rs:631-649 | the scanning loop terminates with that result and never rescans inserted values |
| `Helm.PaddingRendersAlike` | crates/pillar-cli/src/lib.rs:631-649 | templates that differ only in the white space around names, in any of their holes, render alike |
| `Helm.TrimFindsTheName` | crates/pillar-cli/src/lib.rs:631-649 | what is left of a padded name is the name |
| `Helm.PaddingIgnored` | crates/pillar-cli/src/lib.rs:631-649 | a text renders the same with and without white space around the name inside the braces |
| `Replay.ReplayRefinesMap` | crates/pillar-cli/src/observability_ui.rs:572-611 | for any faithful event codec, replaying a run's log in any order gives the entry of the plain map |
| `Dashboards.EventRoundTrip` | crates/pillar-cli/src/observability_ui.rs:550-611 | an event written under a non-empty id is read back with its number, id and kind |
| `Dashboards.ReplayDashboard` | crates/pillar-cli/src/observability_ui.rs:572-611 | the loop over an enumeration keeps the event with the greatest number and resolves a deletion to nothing |
| `Dashboards.RefinesMap` | crates/pillar-cli/src/observability_ui.rs:518-611 | after every run, for every enumeration order, the lookup equals the plain map; an empty id resolves to nothing |
| `Dashboards.NothingDeduplicated` | crates/pillar-cli/src/observability_ui.rs:550-566 | content addressing drops no event of a run |
| `Dashboards.ReadsLastWrite` | crates/pillar-cli/src/observability_ui.rs:518-611 | a dashboard reads as the last operation about it left it, whatever happened to others since |
| `Dashboards.UnnamedReadsNothing` | crates/pillar-cli/src/observability_ui.rs:572-611 | a dashboard no operation is about reads as nothing |
| `Dashboards.ReadsWhatWasWrittenIff` | crates/pillar-cli/src/observability_ui.rs:518-611 | what was last written to a dashboard reads back unchanged exactly when signer and name are one line each |
| `Dashboards.SavedQueryLoads` | crates/pillar-cli/src/observability_ui.rs:464-484 | a saved query loads from every log holding it, unchanged exactly when signer and name are one line each |
| `Dashboards.Builders.constructor` | crates/pillar-cli/src/observability_ui.rs:166-179 | an empty log numbered from zero |
| `Dashboards.Builders.CreateNew` | crates/pillar-cli/src/observability_ui.rs:518-526 | appends one numbered create event under the address of its content, and returns that id |
| `Dashboards.Builders.AppendEvent` | crates/pillar-cli/src/observability_ui.rs:550-566 | appends the encoded event under the next number, which wraps at 2^64 |
| `Dashboards.Builders.UpdateExisting` | crates/pillar-cli/src/observability_ui.rs:531-539 | appends one numbered update event |
| `Dashboards.Builders.DeleteExisting` | crates/pillar-cli/src/observability_ui.rs:543-545 | appends one numbered delete event |
| `Lines.TripleRoundTripIff` | crates/pillar-cli/src/observability_ui.rs:464-484 | three joined lines read back unchanged exactly when the first two hold no newline |
| `Lines.DecimalRoundTrip` | crates/pillar-cli/src/observability_ui.rs:550-611 | a printed sequence number parses back to itself |
| `JsonRows.EscapedIsPrintable` | crates/pillar-cli/src/polish.rs:91-105 | escaped text holds no control character |
| `JsonRows.EscapeEnds` | crates/pillar-cli/src/polish.rs:91-105 | an escaped text is recovered from what precedes its closing quote: no quote inside it is bare |
| `JsonRows.JsonEscape` | crates/pillar-cli/src/polish.rs:91-105 | the character loop yields the escaping of section 7 of RFC 8259 |
| `JsonRows.LabelPairs` | crates/pillar-cli/src/polish.rs:109-124 | the zip loop pairs columns with values and stops with the shorter list |
| `JsonRows.RowJsonObject` | crates/pillar-cli/src/polish.rs:109-124 | one row's object text |
| `JsonRows.RenderRows` | crates/pillar-cli/src/polish.rs:131-134 | the document of all rows, in order |
| `JsonRows.DocumentsEqualIff` | crates/pillar-cli/src/polish.rs:109-134 | two listings under the same columns are the same text exactly when every row shows the same kind, name and labels, present or absent |
| `JsonRows.DocumentDeterminesRows` | crates/pillar-cli/src/polish.rs:131-134 | with rows no wider than the columns the document determines the rows |
| `JsonReader.DocumentReads` | crates/pillar-cli/src/polish.rs:109-134 | a JSON reader recovers from the document every row: kind under its key, name under its key, and each column with its value or null |
| `RequestQueue.Reachable` | crates/pillar-bootstrap/src/request.rs:267-443 | on every run ids are submission places, undecided means no approver, every approver is a member, and key material matches the approved requests exactly |
| `RequestQueue.FirstDecisionStands` | crates/pillar-bootstrap/src/request.rs:383-443 | status and approver of a request are those of the first decision by a member on an existing request; without one it is pending |
| `RequestQueue.RefusedIff` | crates/pillar-bootstrap/src/request.rs:383-443 | a decision is refused as unauthorized, unknown or already decided, in that order, each exactly when the history says so |
| `RequestQueue.SubmitReplies` | crates/pillar-bootstrap/src/request.rs:325-347 | a submission is answered with the number of submissions before it and appends one pending request |
| `RequestQueue.DecisionReplies` | crates/pillar-bootstrap/src/request.rs:383-443 | a decision that goes through answers with the key sealed to the requester by the approver for a node, nothing for a user, plainly for a rejection |
| `RequestQueue.RequestIsAsFiled` | crates/pillar-bootstrap/src/request.rs:325-347 | a request keeps its place as id, the cell, and kind, subject, identity, custody and labels of its submission |
| `RequestQueue.DeliveryIsApproval` | crates/pillar-bootstrap/src/request.rs:383-455 | a key is sealed for exactly the node requests whose standing decision is an approval, to the requester and by that approver; users are escrowed on the same terms |
| `RequestQueue.PendingMeaning` | crates/pillar-bootstrap/src/request.rs:358-363 | the listing holds exactly the pending requests, by ascending id |
| `RequestQueue.RequestsAreConserved` | crates/pillar-bootstrap/src/request.rs:325-443 | pending, approved and rejected sum to the submissions, and every approval delivered exactly once |
| `RequestQueue.SelfApprovalIff` | crates/pillar-bootstrap/src/request.rs:383-390 | a requester can approve its own pending request exactly when it is a member |
| `RequestQueue.MemberApprovesItself` | crates/pillar-bootstrap/src/request.rs:383-424 | a run in which a member is sealed a key on its own approval |
| `RequestQueue.BootstrapRequestQueue.constructor` | crates/pillar-bootstrap/src/request.rs:267-276 | an empty queue for a cell and its members |
| `RequestQueue.BootstrapRequestQueue.Admit` | crates/pillar-bootstrap/src/request.rs:288-290 | adds a deciding member |
| `RequestQueue.BootstrapRequestQueue.SubmitRequest` | crates/pillar-bootstrap/src/request.rs:325-347 | files a pending request under the next id |
| `RequestQueue.BootstrapRequestQueue.ListPending` | crates/pillar-bootstrap/src/request.rs:358-363 | the pending requests in order, as many as the tally says |
| `RequestQueue.BootstrapRequestQueue.Position` | crates/pillar-bootstrap/src/request.rs:365-370 | the first request with the id |
| `RequestQueue.BootstrapRequestQueue.ApproveRequest` | crates/pillar-bootstrap/src/request.rs:383-424 | member, then id, then status; then the key is sealed or the offer escrowed |
| `RequestQueue.BootstrapRequestQueue.RejectRequest` | crates/pillar-bootstrap/src/request.rs:432-443 | the same checks, then no key material |
| `CredentialPolicy.PasswordStrength` | crates/pillar-cli/src/credential_policy.rs:223-245 | the byte loop scores length and character classes |
| `CredentialPolicy.StrengthGrows` | crates/pillar-cli/src/credential_policy.rs:223-245 | adding bytes to a password never lowers its score |
| `CredentialPolicy.OneKindScores` | crates/pillar-cli/src/credential_policy.rs:223-245 | a password of one kind of byte scores one, two from 8 bytes, three from 12 |
| `CredentialPolicy.ByteAdds` | crates/pillar-cli/src/credential_policy.rs:223-245 | one more byte adds a point exactly for a kind not there yet, for the 8th place and for the 12th |
| `CredentialPolicy.EvaluateNewPassword` | crates/pillar-cli/src/credential_policy.rs:275-303 | the first violation in the order strength, reuse, breach |
| `CredentialPolicy.AcceptedIff` | crates/pillar-cli/src/credential_policy.rs:275-303 | a password is accepted exactly when it is strong enough, differs from the last entries in the window, and is not a breached one under the check; else the first broken rule is named |
| `CredentialPolicy.StricterAcceptsLess` | crates/pillar-cli/src/credential_policy.rs:275-303 | a policy stricter in strength, window or breach check accepts nothing the looser refuses |
| `CredentialPolicy.StricterIff` | crates/pillar-cli/src/credential_policy.rs:223-303 | one policy never accepts more than another exactly when it is stricter rule by rule or asks for more than the highest score |
| `CredentialPolicy.HistoryKeepsFloor` | crates/pillar-cli/src/credential_policy.rs:275-303 | over every history of changes under policies at or above a floor, every accepted password met its strength, differed from the window before it, and under its breach check was outside the list of that change |
| `CredentialPolicy.ResourceRoundTripIff` | crates/pillar-cli/src/credential_policy.rs:106-161 | a policy reads back as written exactly when its age is absent or between 1 and 2^63 - 1; otherwise only the age is lost |
| `CredentialPolicy.EditedCountIff` | crates/pillar-cli/src/credential_policy.rs:134-142 | an edited count is used as written exactly when it fits 32 bits, else it is cut |
| `CredentialPolicy.MalformedFieldsFallBack` | crates/pillar-cli/src/credential_policy.rs:79-161 | a missing, mistyped or negative field reads as the shipped value; a missing or non-positive age as none |
| `CredentialPolicy.HugeFloorIsNoFloor` | crates/pillar-cli/src/credential_policy.rs:134-139 | a minimum strength of 2^32 reads as 0 and lets every password pass |
| `CredentialPolicy.HugeAgeIsNoAge` | crates/pillar-cli/src/credential_policy.rs:106-153 | a maximum age of 2^63 seconds reads back as none |
| `Election.Winner` | crates/pillar-keyedstore/src/lib.rs:189-198 | the scan in id order yields the elected operation of a group |
| `Election.BestIff` | crates/pillar-keyedstore/src/lib.rs:189-198 | the scan finds an operation exactly when none of its group is later and no equally late one has a smaller id; none exactly when the group is empty |
| `Election.MergeInto` | crates/pillar-streamdb/src/lib.rs:362-366 | merging enters every operation not yet held |
| `Election.Converges` | crates/pillar-streamdb/src/lib.rs:362-374 | logs that have seen the same operations are equal, whatever the order, start and repetition |
| `Election.CompactReclaiming` | crates/pillar-streamdb/src/lib.rs:438-470 | the two loops keep exactly the ungrouped operations and, per group, the one ahead in priority and then in id |
| `Election.Contest` | crates/pillar-streamdb/src/lib.rs:438-470 | the pass over the log leaves the survivor of every group in the table |
| `Election.AlwaysAgreesIff` | crates/pillar-streamdb/src/lib.rs:410-470 | a compaction is invisible to every read after every later tail exactly when the latest stamp of the group is not shared |
| `Election.ShrinksIff` | crates/pillar-streamdb/src/lib.rs:410-470 | a compaction is smaller exactly when some group has two operations |
| `Election.CompactsOnce` | crates/pillar-streamdb/src/lib.rs:438-470 | compacting again changes nothing |
| `KeyedStore.GroupKeysEqualIff` | crates/pillar-keyedstore/src/lib.rs:442-452 | group keys agree exactly when collection, id and field do |
| `KeyedStore.PriorityOrderIff` | crates/pillar-keyedstore/src/lib.rs:454-470 | priorities compare as bytes exactly as stamps do under the clock order |
| `KeyedStore.PolicyIsTheFoldsOrder` | crates/pillar-keyedstore/src/lib.rs:432-470 | compacting by bytes keeps what compacting by fields and stamps would |
| `KeyedStore.FieldIff` | crates/pillar-keyedstore/src/lib.rs:189-207 | a field reads a value exactly when the elected operation put it: never a value nobody wrote |
| `KeyedStore.LatestDecides` | crates/pillar-keyedstore/src/lib.rs:69-71 | the operation latest by physical time, then logical time, then author decides what its field reads |
| `KeyedStore.ReplicasConverge` | crates/pillar-keyedstore/src/lib.rs:167-207 | replicas holding the same operations read the same value in every field |
| `KeyedStore.SnapshotStandsInIff` | crates/pillar-keyedstore/src/lib.rs:396-429 | a snapshot yields the history's winning operation under every tail exactly when no two operations share the field's latest stamp |
| `KeyedStore.SnapshotReadsAlikeIff` | crates/pillar-keyedstore/src/lib.rs:396-429 | under content addresses a snapshot reads the same value as the history under every tail exactly when no two operations share the field's latest stamp |
| `KeyedStore.SnapshotReads` | crates/pillar-keyedstore/src/lib.rs:396-420 | a snapshot reads the operation with the greatest id among the latest, the history the one with the least |
| `KeyedStore.SnapshotValueIff` | crates/pillar-keyedstore/src/lib.rs:396-420 | the value is kept exactly when those two operations say the same |
| `KeyedStore.SharedStampReads` | crates/pillar-keyedstore/src/lib.rs:396-438 | of two operations on a field under one stamp, at any ids, the history reads the one with the smaller id and the snapshot the other |
| `KeyedStore.SharedStampLosesTheValue` | crates/pillar-keyedstore/src/lib.rs:396-438 | a put and a delete under one stamp, at any content addresses: of history and snapshot one reads the value and the other nothing |
| `KeyedStore.SnapshotShrinksIff` | crates/pillar-keyedstore/src/lib.rs:396-420 | a snapshot is smaller than its log exactly when some field was written more than once |
| `KeyedStore.Store.constructor` | crates/pillar-keyedstore/src/lib.rs:151-153 | an empty log |
| `KeyedStore.Store.Bootstrap` | crates/pillar-streamdb/src/lib.rs:478-486 | the snapshot's operations and then the tail's |
| `KeyedStore.Store.AppendOp` | crates/pillar-streamdb/src/lib.rs:334-339 | the payload under its content address, which is returned; nothing changes when it is held |
| `KeyedStore.Store.MergeStore` | crates/pillar-keyedstore/src/lib.rs:169-171 | the merge of both logs |
| `KeyedStore.Store.GetField` | crates/pillar-keyedstore/src/lib.rs:202-207 | the elected put's value, nothing for a tombstone or an unset field |
| `KeyedStore.Store.Compact` | crates/pillar-keyedstore/src/lib.rs:418-420 | a snapshot by the byte-level policy |

## Left out

- ObjectStore.PublicGetIff: supposes that author, link count and links fit their prefixes; with one of these too long the reader goes out of step and shows whatever record `ObjectStore.ReadsTheLoaded` says.
- ObjectStore.SealedGetIff: supposes that author, link count and links fit their prefixes; with one of these too long the reader goes out of step and shows whatever record `ObjectStore.ReadsTheLoaded` says.
- ObjectStore.PutThenInspect: supposes that author, link count and links fit their prefixes; with one of these too long the reader goes out of step and shows whatever record `ObjectStore.ReadsTheLoaded` says.
- Platform.RollbackRestores: speaks of a rollback the deciders admit; a refused one changes nothing (`Platform.Plane.ApplyManifest`).
- CredentialPolicy.HistoryKeepsFloor: the source takes the history from its caller; the run that appends each accepted password is that caller.
- Real cryptography (ed25519, X25519, AEAD, SHA-256, argon2) and the JSON wire form of keyed operations: payloads of the keyed store are modelled decoded.
- The bytes of a sealed cell key and its content id: a sealed key is its cell, recipient and sealer.
- Merkle roots, snapshot schema versions, stream admission policies and persistence of the op log.
- The keyed store's listings and nested paths (`kv_keys`, `collections`, `doc_ids`, `doc_fields`, `doc_query`): filters over the field reads modelled here.
- Negotiation between whole cells in `crates/pillar-cells/src/federation.rs`: it asks the same question of two cells that `Compat` answers for two nodes, surface by surface.
- Leases, web-of-trust paths, attestations and explicit grants on the command line (`LeaseCli`, `TrustCli`, `AttestCli`, `GrantCli`): they hand each request to a register or decider of another crate and print its answer.
- Sockets, HTTP, UDP, QUIC, mail, environment, files and argument parsing, including `TokenStore`, which carries one token and its domain through environment variables.
- The YAML listing: it prints a label whose value is the word null like an absent one, so it cannot have the property proved of the JSON listing.
- Exporting and importing keys and renaming users: an import makes a new record under the exported id and reads none of the other exported fields, and a rename replaces whoever holds the new handle, so neither has an inverse.
- Status, text rendering and envelope printing of the object store, and the describe text of the platform: other layouts of the records read here.
- Kustomize overlays and the parsing of rendered manifests.
- Telemetry queries: they filter and sort recorded samples, the top list by a number parsed out of each payload as a float.
- The first-user flag of a new cell (`crates/pillar-bootstrap/src/cell.rs`), the advisory on shipped defaults, the domain and space registries, and the checks before editing a foundational resource: each is a decision over one flag or one set, and strict revocation leaves its fencing to the stream database's fold.
- The verb table, the surface listing and the onboarding walk-through: they enumerate what the binary serves or drive other crates through a fixed script.
