# Enclavia, modelled and proved in Dafny

Enclavia runs workloads in attested enclaves, upgrades them through a signed chain, unlocks their disks with a KMS key
bound to their measurements, and filters what they may connect to. This project models the five parts of that where
a mistake is silent, and proves what they are for. Check it with `dafny verify dfyconfig.toml` (Dafny 4.11).

**The upgrade chain** (`ChainTypes`, `ControlSignature`, `LinkValidation`, `LinkAcceptance`, `Refusals`, `ChainWalk`,
`WalkSoundness`, `WalkReport`, `PcrDescent`, `LinearDescent`, `DescentPromise`, `ChainWorld`, `BranchedChain`,
`CopiedChain`, `ChainIngest`, `IngestInvariants`, `RevocationFinality`, `WalkCompleteness`). A backend ingests boot,
upgrade and revocation links one at a time against a mutable row; clients later walk the stored links, rebuild the row
each link was judged against, and decide whether the version they pinned is part of the enclave's history. The walker is
proved to append every link of exactly the chains ingest can build, acceptance is proved to mean a justified lineage
back to the first boot, the condition for a pin to be on it is exact, and what a refusal says is true.

**The BER to DER transcoder** (`BerGrammar`, `BerParser`, `DerNormal`, `DerEmbedding`, `BerTranscoder`,
`TranscoderTheorems`, `TagConservation`). A grammar of ITU-T X.690 encodings (sections 8.1.3, 8.1.5, 8.7, 10.1 and
10.2), a tree normaliser and a printer; the single-pass transcoder is proved to refine them, and to do to the tree
exactly what a rewriting relation on BER trees allows.

**Disk key rotation** (`KeyslotDump`, `KeyRotation`, `RotationSafety`, `RotationSession`, `RotationLiveness`,
`RotationMachine`). Keyslots, the on-disk key blob, the rollback stash, the keys scheduled for deletion; steps are boot,
prepare and revoke, with any external call failing, any acknowledgement lost, and any command cut short after any of its
effects. Both what stays safe and when each command succeeds are proved.

**The KMS policy check** (`PolicyDocument`, `PolicyReader`, `KmsPolicy`, `PolicySoundness`). What the check asks is
stated on the JSON document; the check is proved to decide exactly that, and that to be sound against an evaluator with
glob actions, conjunctive conditions and Deny statements.

**Egress** (`Hostname`, `EgressPolicy`, `EgressConfig`, `EgressFlags`, `EgressGrammar`, `EgressFlow`, `EgressStack`).
The allowlist decision, the flag grammar stated on the text, its agreement with the document grammar, byte conservation
through the flow buffers, and the flow table.

`Wrappers`, `Hex` and `Text` hold shared helpers.

## Conventions

Signatures, hashes, CBOR readers and writers, attestation documents, address parsers, the DNS resolver and the socket
layer are function-valued fields or parameters. Every result holds for every choice of them, except that `EntryHasFlag`
asks the address parsers to reject the empty string and `UdpFlagRefused` that they reject its host name. Clocks, random
bytes and the answers of external calls are parameters. Loops and updates in place are methods proved against
functions; the lemmas are about those functions.
Classes carry the state that the source mutates (`RotationMachine.Machine`, `EgressPolicy.Allowlist`, `EgressFlow.Flow`,
`EgressStack.Stack`).

## Where a promise is false of the code

The model follows the code. Each of these has a witness and the condition under which the promise does hold.

- The comment on `verify_pcr_descent` (enclavia-protocol/src/chain.rs:1409-1418) says a matching pin places the tip
  downstream of it. It fails in two ways. Two upgrades signed by one version can be booted in turn, and then the tip
  descends from the first version and not from the second (`TipNeedNotDescendFromPin`). A boot that changes the PCRs but
  repeats the digest is taken for a copy, so its pin is accepted although it was never in force (`TipMayPrecedePin`).
  For pinned PCRs the promise is that a version on the tip's lineage has them; `PcrsUpstreamIff` says exactly when, and
  any one boot of these PCRs will do. For boots it is that the position that put the boot in force is on the lineage:
  `UpstreamIff` says exactly when for one boot, and it holds of every boot if and only if neither failure happens
  (`PromiseIff`).
- The comment on `ber_to_der` (enclavia-protocol/src/kms_recipient.rs:151-153) says it leaves strict DER alone. It
  collapses a context-specific constructed value whose children are all octet strings (`StrictDerRewritten`), and
  changes strict DER if and only if there is one (`StrictDerFixedIff`).
- Output is no longer than input up to 65539 octets and can be longer at 65540 (`TranscodeShortens`,
  `ShorteningIsTight`).
- A revoke that fails between killing the slot and writing the blob leaves a blob that opens nothing
  (`HalfRevokeReachable`). Over a whole run the next boot works at every state if and only if the run goes through no
  such state (`BootableOverRuns`, `BootsOverRuns`); from there no boot and no other command ever succeeds
  (`HalfRevokeIsFinal`).
- The stack loses bytes in three ways. It discards a chunk it has taken from the socket when the forwarder's channel is
  full (enclavia-egress/src/stack.rs:328-333); while a flow exists its bytes add up if and only if no chunk was lost
  (`Conservation`), a chunk is lost if and only if the channel is full or closed (`Drain`), and `SlowForwarderLoses` is
  a history that loses one. It removes a closing flow after one turn with what its receive buffer, its pending rest and
  its queue hold (enclavia-egress/src/stack.rs:379-394, `ClosedFlowLoses`). And the socket goes with its send buffer, so
  what the last turn gave it is never transmitted (`LastTurnLoses`). `RemovedConservation` says exactly when a removed
  flow lost nothing.
- The comment on `parse_cli_entry` (enclavia-protocol/src/egress_config.rs:525-527) says UDP entries parse but do not
  fire. The loader refuses them (`UdpFlagRefused`, for every host and port `UdpNeverLoads`): a parsed flag loads if and
  only if it is TCP (`CliEntryLoads`).
- enclavia-crypto/README.md:7 says prepare kills the old slot. The code keeps it: no slot of a session's start is ever
  killed (`SessionKeepsSlots`).

## Model

| member | source | states |
|---|---|---|
| ControlSignature.SignedMessageInjective | enclavia-protocol/src/signing.rs:47-86 | A signed message determines its domain and its payload, so a signature made in one domain covers nothing in another. |
| LinkValidation.LastBoot | enclavia-protocol/src/chain.rs:835-840 | The index of the latest boot, with none after it, or -1. |
| LinkValidation.FirstWithId | enclavia-protocol/src/chain.rs:963-967 | The first link with an id, with none before it, or -1 when there is none. |
| LinkValidation.CheckNotRevoked | enclavia-protocol/src/chain.rs:981-995 | Passes if and only if every stored revocation decodes and names another upgrade. |
| LinkValidation.AcceptedBoot | enclavia-protocol/src/chain.rs:755-873 | An accepted boot carries a valid document made for its own payload, attesting the recorded PCR0-2, and states the recorded version of this enclave. |
| LinkValidation.AcceptedUpgrade | enclavia-protocol/src/chain.rs:755-944 | An accepted upgrade carries a valid document made for its own payload by the recorded version, is signed in its own domain, names this enclave and the attested identity, and has a window of at least 3600 s. |
| LinkValidation.AcceptedIsAttested | enclavia-protocol/src/chain.rs:755-790 | A link accepted under any kind carries a valid document whose user data is the hash of its own payload and whose PCR0-2 are the recorded ones. |
| LinkValidation.DocumentFitsOnePayload | enclavia-protocol/src/chain.rs:776-790 | Two accepted links with the same attestation octets have payloads of the same hash, on whatever chains, rows and clocks. |
| LinkValidation.KindCannotBeRelabelled | enclavia-protocol/src/signing.rs:47-86 | A signature that fits one message only and was accepted on an upgrade is refused on a revocation. |
| LinkValidation.SignedNeedsGenesis | enclavia-protocol/src/chain.rs:1000-1003 | No signed link is accepted onto an empty chain. |
| LinkValidation.AssignmentIrrelevant | enclavia-protocol/src/chain.rs:755-1007 | The verdict does not depend on the id and sequence number assigned on insert. |
| LinkAcceptance.BootAppendIff | enclavia-protocol/src/chain.rs:807-873 | A boot is appended if and only if it is attested, unsigned, of the recorded version, and is the first boot or one of another image that keeps the latest boot's anti-rollback setting on an upgradable enclave. |
| LinkAcceptance.BootDedupIff | enclavia-protocol/src/chain.rs:835-856 | A boot is a copy if and only if the latest boot names the same image. |
| LinkAcceptance.RevokeTargetIff | enclavia-protocol/src/chain.rs:963-995 | The target checks pass if and only if the first link with the id is an upgrade of the named hash that is not yet active, and no stored revocation names it. |
| LinkAcceptance.RevocationAppendIff | enclavia-protocol/src/chain.rs:945-1007 | Exactly when a revocation is appended and exactly when it is recognised as a replay. |
| LinkAcceptance.UpgradeNeverRefused | enclavia-protocol/src/chain.rs:875-944 | An upgrade once accepted is never refused under the same recorded version: on any chain that has begun and at any time it is appended, or a copy if the chain holds its payload. |
| LinkAcceptance.ResubmissionDedups | enclavia-protocol/src/chain.rs:807-1018 | Submitting an appended link again is a copy whatever was appended after it; for a boot, as long as no other boot was. |
| Refusals.SuccessorIff | enclavia-protocol/src/chain.rs:283-300 | The successor check passes if and only if protection stays off, or stays on with an upgrade target, the same attestation mode and some synchronizer; each error names what changed. |
| Refusals.RefusalIsTrue | enclavia-protocol/src/chain.rs:755-1018 | Whatever link is refused, the fault the error names is one the link has: each error has its own condition on the link, the chain, the row and the clock. |
| ChainWalk.RevokedIds | enclavia-protocol/src/chain.rs:1310-1315 | The collected ids are those some decodable revocation names, and no others. |
| ChainWalk.LastExplaining | enclavia-protocol/src/chain.rs:1316-1335 | The most recent upgrade that explains a version, with none later, or -1. |
| ChainWalk.FindPromotionTarget | enclavia-protocol/src/chain.rs:1305-1336 | The reverse scan returns the payload of the most recent explaining upgrade: the first copy of its payload, matching PCR0-2 and digest, named by no decodable revocation. |
| ChainWalk.ReconstructContext | enclavia-protocol/src/chain.rs:1174-1254 | The row rebuilt for a link is the in-force version or the promotion target's, with the window and identity checks of a promotion. |
| ChainWalk.ValidateChain | enclavia-protocol/src/chain.rs:1134-1289 | The loop over outcomes, prior links and in-force state is the fold of the walk step; the tip matches the row as computed from its final state. |
| WalkReport.TargetIff | enclavia-protocol/src/chain.rs:1305-1336 | The promotion target is the payload of the last upgrade that names the version, is the first copy of its payload and is named by no decodable revocation; none if and only if there is none. |
| WalkReport.WalkRefusalIsTrue | enclavia-protocol/src/chain.rs:1154-1273 | A link the walk refuses has the fault its error names, in the rebuilt context: a repeated payload, a boot outside its upgrade's window by more than 60 s, a foreign identity, or a fault of the validator. |
| WalkReport.SummaryMeans | enclavia-protocol/src/chain.rs:1265-1288 | The report names the version and identity of the last boot that was put in force, nothing if there is none, and the tip matches the row if and only if that boot states the row. |
| WalkReport.TipIsAttested | enclavia-protocol/src/chain.rs:1461-1491 | The PCR0-2 the descent check returns are those that the last boot put in force attests. |
| WalkSoundness.OutcomesAllOk | enclavia-protocol/src/chain.rs:1134-1289 | Every outcome is Ok if and only if every link is accepted at its own position. |
| WalkSoundness.IdentityAgrees | enclavia-protocol/src/chain.rs:1265-1288 | After any walk the final identity is present exactly when the final PCRs are, and its image PCRs are those. |
| WalkSoundness.GenesisAnchors | enclavia-protocol/src/chain.rs:1134-1289 | An accepted chain begins with a boot that sets the in-force version, which stays present. |
| WalkSoundness.UpgradeAttestedInForce | enclavia-protocol/src/chain.rs:1154-1273 | An accepted upgrade was attested by the version in force at its own position. |
| WalkSoundness.BootOfOtherVersion | enclavia-protocol/src/chain.rs:1186-1249 | An accepted boot of a version other than the in-force one has an earlier justifying upgrade, the most recent explaining one. |
| WalkSoundness.WalkSound | enclavia-protocol/src/chain.rs:1154-1273 | Each in-force change after the first boot comes from an appended boot justified by an earlier upgrade: signed in its domain, attested by the version then in force, naming the boot's identity and digest, unrevoked before the boot, its window containing the boot time within 60 s. |
| PcrDescent.FirstRefused | enclavia-protocol/src/chain.rs:1457-1459 | The first refused link with its own error, or none when every outcome is Ok. |
| PcrDescent.PinnedInLineage | enclavia-protocol/src/chain.rs:1471-1485 | Whether some boot's PCR0-2 are the pinned ones; an error exactly when a boot is unreadable, naming the first. |
| PcrDescent.VerifyPcrDescent | enclavia-protocol/src/chain.rs:1428-1491 | Succeeds if and only if the chain is non-empty, wholly accepted and some boot carries a document, made for its own payload, of exactly the pinned PCR0-2; then returns the in-force PCRs. An unreadable boot payload cannot occur; the missing-genesis error is exactly the empty chain; each error has its exact condition. |
| PcrDescent.AcceptedChainReadable | enclavia-protocol/src/chain.rs:1461-1485 | Once every outcome is Ok, every boot payload reads and the in-force PCRs exist exactly for a non-empty chain. |
| PcrDescent.TracesToGenesis | enclavia-protocol/src/chain.rs:1428-1491 | Every in-force version traces back to the first boot through signed upgrade edges, descending in position. |
| PcrDescent.BootClassified | enclavia-protocol/src/chain.rs:1428-1491 | Every accepted boot is the first boot, a reboot of the in-force version, or the target of a signed unrevoked upgrade. |
| PcrDescent.DescentSound | enclavia-protocol/src/chain.rs:1428-1491 | On success the returned tip has a lineage to the first boot and the pinned PCRs belong to a classified boot. |
| LinearDescent.CoversIffCurrent | enclavia-protocol/src/chain.rs:1428-1491 | The lineage of a version holds every position that put a version in force before it if and only if each promotion rests on an upgrade recorded after the previous promotion. |
| DescentPromise.ForeignAdvances | enclavia-protocol/src/chain.rs:853-856 | An accepted boot of PCR0-2 other than those in force is put in force if and only if its digest is not the latest boot's. |
| DescentPromise.OnLineageIff | enclavia-protocol/src/chain.rs:1428-1491 | A position is on the lineage of a later one if and only if no promotion of that lineage after it rests on an upgrade recorded before it. |
| DescentPromise.UpstreamIff | enclavia-protocol/src/chain.rs:1466-1488 | One pin: the boot it matches is upstream of the tip if and only if it is no foreign copy and no promotion of the tip's lineage reaches back past the position that put it in force. |
| DescentPromise.PromiseIff | enclavia-protocol/src/chain.rs:1466-1488 | All boots: every boot a pin can match is upstream of the tip, by position, if and only if every promotion rests on a current upgrade and no boot changes the PCRs while it repeats the latest digest. |
| DescentPromise.PcrsUpstreamIff | enclavia-protocol/src/chain.rs:1409-1418 | One pin, as PCR0-2: a version on the tip's lineage has them if and only if some boot of them is no foreign copy and no promotion of the lineage reaches back past the position that put it in force. |
| DescentPromise.PromiseCoversPcrs | enclavia-protocol/src/chain.rs:1409-1418 | When every boot is upstream, so are the PCR0-2 of every pin the check accepts. |
| BranchedChain.TipNeedNotDescendFromPin | enclavia-protocol/src/chain.rs:1409-1418 | A five-link accepted chain with a booted, pinned version that is not upstream of the tip. |
| CopiedChain.TipMayPrecedePin | enclavia-protocol/src/chain.rs:853-856 | A three-link accepted chain whose upgrades are all current, with a pinned boot that is never put in force: the tip is its ancestor. |
| ChainIngest.ChainGrows | enclavia-protocol/src/chain.rs:755-1018 | Every ingest run only extends the chain. |
| IngestInvariants.SuccessorTransitive | enclavia-protocol/src/chain.rs:283-300 | The anti-rollback successor relation is transitive. |
| IngestInvariants.IngestStructured | enclavia-protocol/src/chain.rs:807-1018 | In every chain ingest builds: a boot first, sequence numbers equal positions, fresh ids, consecutive boots differ in digest, no signed payload twice, every revocation resolves to an earlier upgrade by id and hash, none revoked twice, and a non-upgradable chain has at most one link. |
| RevocationFinality.RevocationIsFinal | enclavia-protocol/src/chain.rs:1305-1336 | Once the first copy of an upgrade payload is revoked, no promotion target is ever that payload, whatever links follow. |
| RevocationFinality.ReplayNeverAppends | enclavia-protocol/src/chain.rs:941-961 | A signed payload already on the chain is never appended again, under any row, clock or later links. |
| RevocationFinality.ReplayOverRuns | enclavia-protocol/src/chain.rs:941-961 | After any ingest run, re-submitting a stored signed link changes nothing. |
| RevocationFinality.AntiRollbackFixed | enclavia-protocol/src/chain.rs:283-300 | All boots of an ingest-built chain agree on whether protection is on; when it is, later boots keep the attestation mode, are upgrade targets and trust a synchronizer. |
| WalkCompleteness.RunInStep | enclavia-protocol/src/chain.rs:1134-1289 | After every disciplined ingest run the walker's rebuilt state equals ingest's row and chain. |
| WalkCompleteness.WalkComplete | enclavia-protocol/src/chain.rs:1134-1289 | Walking an ingest-built chain gives Append(i) at every position i and a tip that matches the row. |
| WalkCompleteness.Realise | enclavia-protocol/src/chain.rs:1134-1289 | A stored chain whose every position appends comes from some disciplined ingest run. |
| WalkCompleteness.WalkIffIngest | enclavia-protocol/src/chain.rs:1134-1289 | A chain with fresh ids, positions as sequence numbers and record times is appended at every position by the walker if and only if a disciplined ingest run builds it: one where the row changes only by a promotion at once followed by its boot. |
| BerParser.ParseSound | enclavia-protocol/src/kms_recipient.rs:174-277 | A parse is a well-formed tree within the depth bound whose encoding is the consumed input. |
| BerParser.ParseComplete | enclavia-protocol/src/kms_recipient.rs:174-277 | Every well-formed tree within the depth bound is parsed back from its encoding, whatever follows. |
| BerParser.ParseIffEncoded | enclavia-protocol/src/kms_recipient.rs:174-277 | The parser and the grammar determine each other. |
| BerParser.LongFormLimit | enclavia-protocol/src/kms_recipient.rs:259-277 | A long form of one to four length octets is read as the number they spell; five or more are refused whatever they spell. |
| BerParser.LengthSpelled | enclavia-protocol/src/kms_recipient.rs:266-277 | The octets of a long form spell the length, most significant first. |
| DerNormal.NormaliseKeeps | enclavia-protocol/src/kms_recipient.rs:237-255 | Normalising yields a normal form with the same primitive contents, no deeper; which identifiers it has is `TagConservation.NormaliseIff`. |
| DerEmbedding.DerLengthMinimal | enclavia-protocol/src/kms_recipient.rs:280-294 | The emitted length is no longer than any other definite spelling of it. |
| DerEmbedding.EmbedDer | enclavia-protocol/src/kms_recipient.rs:280-294 | A printed normal form is itself a well-formed encoding that normalises to the same tree. |
| DerEmbedding.EmbedLegal | enclavia-protocol/src/kms_recipient.rs:280-294 | A printed tree without constructed octet strings is its own encoding. |
| DerEmbedding.PrintShortens | enclavia-protocol/src/kms_recipient.rs:174-294 | Up to 65539 octets, the print of the normalised tree is no longer than the tree's encoding. |
| BerTranscoder.ReadLen | enclavia-protocol/src/kms_recipient.rs:259-277 | The accumulating loop reads exactly the length octets of the grammar, with the same refusals. |
| BerTranscoder.EmitDer | enclavia-protocol/src/kms_recipient.rs:280-294 | The byte loop emits identifier, minimal definite length and content. |
| BerTranscoder.OctetValue | enclavia-protocol/src/kms_recipient.rs:297-307 | The content of an emitted octet string below 2^32 octets, and nothing for any other emitted value. |
| BerTranscoder.EmitNode | enclavia-protocol/src/kms_recipient.rs:237-255 | From the printed children, the print of the combined node, or a refusal when a constructed octet string has another child; the identifier of a collapsed string is fixed by `TagConservation.ChunksJoin` and `TagConservation.TagKept`. |
| BerTranscoder.TranscodeRegion | enclavia-protocol/src/kms_recipient.rs:209-220 | The definite-length child loop transcodes the children of the whole region. |
| BerTranscoder.TranscodeUntilEnd | enclavia-protocol/src/kms_recipient.rs:221-234 | The indefinite-length child loop stops at the end-of-contents octets and returns what follows them. |
| BerTranscoder.TranscodeTlv | enclavia-protocol/src/kms_recipient.rs:174-256 | The single pass equals parse, normalise, print; it consumes at least two octets when it succeeds. |
| TranscoderTheorems.BerToDerCode | enclavia-protocol/src/kms_recipient.rs:154-160 | The whole-input transcoder refuses trailing octets and otherwise equals its specification. |
| TranscoderTheorems.TranscoderRefines | enclavia-protocol/src/kms_recipient.rs:154-307 | It succeeds with y if and only if the input is the encoding of a tree within the depth bound that normalises to a tree printed as y. |
| TranscoderTheorems.TreeOf | enclavia-protocol/src/kms_recipient.rs:154-307 | The tree behind a success: normal form, same contents, within the depth bound. |
| TranscoderTheorems.TranscoderIdempotent | enclavia-protocol/src/kms_recipient.rs:154-307 | Transcoding an output below 2^32 octets returns it unchanged. |
| TranscoderTheorems.IdentityIffNormal | enclavia-protocol/src/kms_recipient.rs:151-160 | The transcoder is the identity exactly on prints of normal forms. |
| TranscoderTheorems.StrictDerFixedIff | enclavia-protocol/src/kms_recipient.rs:151-160 | On strict DER the transcoder changes nothing if and only if no context-specific constructed value holds only octet strings. |
| TranscoderTheorems.StrictDerRewritten | enclavia-protocol/src/kms_recipient.rs:237-249 | The strict DER string A0 02 04 00 becomes 80 00. |
| TranscoderTheorems.EncodeUnique | enclavia-protocol/src/kms_recipient.rs:174-277 | Two well-formed trees whose encodings start the same input are equal. |
| TranscoderTheorems.StrictDerUnique | enclavia-protocol/src/kms_recipient.rs:280-294 | A strict DER string is the print of one tree only. |
| TranscoderTheorems.DeepNestingRefused | enclavia-protocol/src/kms_recipient.rs:162-178 | A tree nested deeper than the bound is refused. |
| TranscoderTheorems.ContentsConserved | enclavia-protocol/src/kms_recipient.rs:174-307 | Input and output have the same primitive contents in order. |
| TranscoderTheorems.TranscodeFrames | enclavia-protocol/src/kms_recipient.rs:174-256 | Octets after the value do not change the result and are handed back. |
| TranscoderTheorems.TranscodeShortens | enclavia-protocol/src/kms_recipient.rs:174-294 | Up to 65539 octets of input, output plus remainder never exceeds the input. |
| TranscoderTheorems.ShorteningIsTight | enclavia-protocol/src/kms_recipient.rs:174-294 | At 65540 octets some input grows. |
| TagConservation.NormaliseIff | enclavia-protocol/src/kms_recipient.rs:237-255 | A BER tree normalises to a DER tree if and only if the rewriting relation holds between them: a primitive stays, 24 becomes 04 over the joined segments, a context-specific run of octet strings becomes the primitive of the same number, any other node keeps its octet and its rewritten children. |
| TagConservation.TranscoderRewrites | enclavia-protocol/src/kms_recipient.rs:154-307 | The transcoder gives y if and only if the input encodes a tree at most 64 levels deep that rewrites to a tree printed as y. |
| TagConservation.TagKept | enclavia-protocol/src/kms_recipient.rs:237-255 | The class and tag number of the value survive; only the constructed bit can go. |
| TagConservation.ChunksJoin | enclavia-protocol/src/kms_recipient.rs:237-255 | A universal octet string, or a context-specific value, in primitive octet-string chunks and under any length form becomes one primitive of the same class and number with the concatenated chunks. |
| TagConservation.ChunkedExample | enclavia-protocol/src/kms_recipient.rs:237-249 | 24 05 04 01 AA 04 00 becomes 04 01 AA. |
| KeyslotDump.FirstFreeFromOccupied | enclavia-crypto/src/main.rs:144-150 | The least free index, found by pigeonhole within the number of occupied slots. |
| KeyslotDump.ParseOccupiedKeyslots | enclavia-crypto/src/main.rs:116-141 | The line loop returns the slots listed within the section, or nothing when there is no header. |
| KeyslotDump.SectionOnly | enclavia-crypto/src/main.rs:116-141 | Only the lines between the header and the next unindented line count. |
| KeyslotDump.ListingRoundTrip | enclavia-crypto/src/main.rs:116-141 | A printed listing reads back as its slots, whatever surrounds the section. |
| KeyslotDump.ListingIff | enclavia-crypto/src/main.rs:116-141 | A slot is read if and only if a line numbers it below a line that is `Keyslots:` and white space, with only indented lines between, however many sections there are. |
| KeyslotDump.SlotIff | enclavia-crypto/src/main.rs:130-138 | A line gives a slot if and only if it is white space, a decimal number below 2^32, a colon and anything. |
| RotationSafety.PrepareSafe | enclavia-crypto/src/main.rs:356-577 | Every state prepare goes through is safe: no named key is scheduled or its own predecessor, the running passphrase opens a slot and not only the one a revoke would kill. |
| RotationSafety.RevokeSafe | enclavia-crypto/src/main.rs:584-700 | Every state revoke goes through is safe. |
| RotationSafety.InitSafe | enclavia-crypto/src/main.rs:288-354 | Every state boot-time key setup goes through is safe. |
| RotationSafety.BootSafe | enclavia-crypto/src/main.rs:288-354 | Every state of a reboot, from losing the stash to running, is safe. |
| RotationSafety.RunSafe | enclavia-crypto/src/main.rs:288-700 | Over every run of boots, prepares and revokes, with failures and cuts anywhere, every visited state is safe. |
| RotationSafety.ProvisionedSafe | enclavia-crypto/src/main.rs:277-300 | A freshly provisioned volume is safe. |
| RotationSession.SessionKeepsSlots | enclavia-crypto/src/main.rs:481-700 | No slot occupied when a session began is ever killed or overwritten by its prepares and revokes. |
| RotationSession.PrepareKeepsBlobOpening | enclavia-crypto/src/main.rs:356-577 | Throughout prepare the on-disk blob's passphrase opens some slot. |
| RotationSession.BlobOpensIff | enclavia-crypto/src/main.rs:646-693 | In a recoverable state the blob opens a slot if and only if no revoke is half done. |
| RotationSession.BlobOpensOverSession | enclavia-crypto/src/main.rs:356-700 | The same at every state of every session, given that each prepare draws a new passphrase. |
| RotationSession.BootableOverRuns | enclavia-crypto/src/main.rs:288-700 | Over every run, reboots included, from any state with a recoverable or unformatted volume: the blob opens the volume or the volume is unformatted at every state if and only if the run goes through no half-done revoke, given that each prepare draws a new passphrase. That such a boot comes up is `RotationLiveness.BootsOverRuns`. |
| RotationSession.StaleBlobCannotBoot | enclavia-crypto/src/main.rs:288-354 | A blob that opens no slot never leads to a running version. |
| RotationSession.HalfRevokeReachable | enclavia-crypto/src/main.rs:646-693 | From every ready state, a revoke whose blob write is refused reaches the half-done state. |
| RotationSession.RevokeIsStuck | enclavia-crypto/src/main.rs:584-700 | With the stashed slot gone, every command short of a reboot fails without effect. |
| RotationSession.HalfRevokeIsFinal | enclavia-crypto/src/main.rs:288-700 | From any half-done revoke, in every run with reboots, failures and cuts, no boot and no other command succeeds and the blob opens nothing at any state. |
| RotationSession.PrepareThenRevoke | enclavia-crypto/src/main.rs:481-700 | A prepare that reached its blob write, then a successful revoke, restores slots, blob and stash exactly. |
| RotationSession.RevokeSucceeds | enclavia-crypto/src/main.rs:584-700 | That revoke does succeed when its calls do and the new passphrase differs. |
| RotationSession.UpgradeBoots | enclavia-crypto/src/main.rs:288-577 | After a successful prepare the next boot runs on the new passphrase, schedules exactly the old key and clears it from the blob. |
| RotationLiveness.BootIff | enclavia-crypto/src/main.rs:288-354 | A boot comes up if and only if a blob of version 1 is stored, its policy passes, its 32-octet passphrase can be sealed or decrypted and written, the volume is unformatted or opens with it, and a scheduled previous key could be cleared. |
| RotationLiveness.BootResult | enclavia-crypto/src/main.rs:288-354 | What a boot that came up leaves: the running passphrase, the slots, the sealed blob, the previous key scheduled and forgotten as far as the calls went. |
| RotationLiveness.FailedBootKeeps | enclavia-crypto/src/main.rs:288-354 | A boot that does not come up changes no slot and schedules at most the previous key; on a first boot it may have sealed the random passphrase. |
| RotationLiveness.SealedBootIff | enclavia-crypto/src/main.rs:303-354 | With a sealed blob under a live key and calls that work, a boot comes up if and only if the volume is unformatted or the sealed passphrase opens a slot. |
| RotationLiveness.FirstBoot | enclavia-crypto/src/main.rs:303-330 | A provisioned volume whose calls work comes up, formatted with the random passphrase sealed in the blob. |
| RotationLiveness.RefusedScheduleBoots | enclavia-crypto/src/main.rs:339-351 | A refused deletion of the previous key never stops a boot. |
| RotationLiveness.BootsOverRuns | enclavia-crypto/src/main.rs:288-700 | In every run from provisioning on, a boot whose calls work comes up at every state if and only if the run goes through no half-done revoke. |
| RotationLiveness.PrepareIff | enclavia-crypto/src/main.rs:356-577 | Prepare succeeds if and only if it is ready, the sealed passphrase opens a slot and each call works; it leaves exactly the new slot, the new blob naming the old key, and the stash. |
| RotationLiveness.FailedPrepareUndone | enclavia-crypto/src/main.rs:481-560 | A prepare whose key was not added or not verified, and whose clean-up works, leaves the state as it was. |
| RotationLiveness.InterruptedPrepare | enclavia-crypto/src/main.rs:481-540 | A prepare whose tool could not be started leaves the stash, and the new slot once the key was added. |
| RotationLiveness.RevokeIff | enclavia-crypto/src/main.rs:584-700 | Revoke succeeds if and only if there is a stash whose passphrase is to be had and opens a slot other than the stashed one, that slot exists, the live test does not find the passphrase in it, and each call works. |
| RotationLiveness.RevokeKillsPreparedOnly | enclavia-crypto/src/main.rs:584-700 | Revoke touches no slot but the stashed one. |
| RotationMachine.Machine.PrepareUpgrade | enclavia-crypto/src/main.rs:356-577 | The step-by-step command goes through exactly the specified states, ends in the last, and reports its result. |
| RotationMachine.Machine.RevokeUpgrade | enclavia-crypto/src/main.rs:584-700 | The same for revoke. |
| RotationMachine.Machine.RetirePrevious | enclavia-crypto/src/main.rs:339-351 | The same for retiring the previous key; that it never stops a boot it should not is `RotationLiveness.BootIff`. |
| RotationMachine.Machine.InitKeys | enclavia-crypto/src/main.rs:288-354 | The same for boot-time key setup, with the recovered passphrase. |
| RotationMachine.Machine.Reboot | enclavia-crypto/src/main.rs:288-354 | The same for a whole reboot; when it comes up and what it leaves is `RotationLiveness.BootIff` and `RotationLiveness.BootResult`. |
| RotationMachine.Machine.Perform | enclavia-crypto/src/main.rs:288-700 | Any command appends exactly its states to the history, and a history of safe states stays one. |
| PolicyReader.CollectPcrBindings | enclavia-protocol/src/kms_policy.rs:209-232 | The nested loops compute the equality bindings of the conditions, later ones replacing earlier ones. |
| PolicyReader.GetIff | enclavia-protocol/src/kms_policy.rs:119-123 | A key lookup finds the first member of that name, and nothing if and only if the value is no object or has no such member. |
| PolicyReader.StatementsIff | enclavia-protocol/src/kms_policy.rs:119-123 | The statements gone through are the elements of the `Statement` member when it is an array and that member alone when it is not, in order; none if and only if there is no such member. |
| PolicyReader.ActionsIff | enclavia-protocol/src/kms_policy.rs:191-201 | The actions looked at are the strings the `Action` member is or lists, in lower case. |
| PolicyReader.BindsIff | enclavia-protocol/src/kms_policy.rs:209-232 | The collected binding of a PCR is the last single string under either spelling of its key and either equality operator; absent if and only if there is none. |
| KmsPolicy.AcceptableIff | enclavia-protocol/src/kms_policy.rs:128-183 | A statement passes if and only if it has no `NotAction`, names no wildcard and none of the four loosening actions, and where it names decryption binds PCR0, PCR1 and PCR2 to text that decodes to ours. |
| KmsPolicy.CheckActions | enclavia-protocol/src/kms_policy.rs:144-164 | Passes if and only if no action has a wildcard or is forbidden; an error names the first offending action. |
| KmsPolicy.CheckBindings | enclavia-protocol/src/kms_policy.rs:166-183 | Passes if and only if PCR0-2 are bound to ours; an error names the first PCR that is unbound or bound elsewhere, with both values. |
| KmsPolicy.VerifyDecryptPolicy | enclavia-protocol/src/kms_policy.rs:115-186 | Accepts if and only if the document has a `Statement` member and every Allow statement in it passes; an error is true of the document, and is the first fault of the first Allow statement that fails. |
| PolicySoundness.LiteralGlob | enclavia-protocol/src/kms_policy.rs:146-156 | A pattern without wildcards matches only itself. |
| PolicySoundness.NamedActionsOnly | enclavia-protocol/src/kms_policy.rs:137-164 | An acceptable statement matches only actions it names, none forbidden. |
| PolicySoundness.PinnedRequestIsOurs | enclavia-protocol/src/kms_policy.rs:166-232 | The conditions of a pinning statement are met only by requests attesting our PCR0-2, duplicates included. |
| PolicySoundness.AcceptedPolicyIsSound | enclavia-protocol/src/kms_policy.rs:115-232 | From the document: when it is accepted, a decrypt request it allows attests exactly our PCR0-2, and a request to put a policy, create a grant, replicate the key or re-encrypt is never allowed; for every engine, principal and Deny statement. |
| PolicySoundness.OwnEnclaveAllowed | enclavia-protocol/src/kms_policy.rs:257-303 | In any document, a gated statement allows our own attested decrypt request unless a Deny statement stops it. |
| PolicySoundness.GatedPolicyDecides | enclavia-protocol/src/kms_policy.rs:257-303 | A document of gated and key-life statements is accepted, and decides decryption exactly: our enclave and no other is let through. |
| PolicySoundness.SingleStatementDecides | enclavia-protocol/src/kms_policy.rs:588-620 | The same where the `Statement` member is one gated object and no array. |
| PolicySoundness.LifecycleActions | enclavia-protocol/src/kms_policy.rs:257-280 | The actions of the other two statements of such a policy are key-life actions. |
| Hostname.ValidateIff | enclavia-protocol/src/egress_config.rs:672-697 | The check accepts exactly the names of at most 253 characters made of dot-separated labels of 1 to 63 letters, digits and inner hyphens. |
| Hostname.AcceptedIsPlain | enclavia-protocol/src/egress_config.rs:391-402 | An accepted name carries no white space, control character, colon or slash. |
| Hostname.FaultIsTrue | enclavia-protocol/src/egress_config.rs:672-697 | The fault of a refused name is one it has: of the whole name, or of a part between its dots. |
| EgressPolicy.ContainsIffSamePrefix | enclavia-protocol/src/egress_config.rs:212-219 | A block holds exactly the addresses that share its prefix bits. |
| EgressPolicy.ContainsIffSameBits | enclavia-protocol/src/egress_config.rs:212-219 | A block holds exactly the addresses whose first prefix bits are its own. |
| EgressPolicy.BlockSpans | enclavia-protocol/src/egress_config.rs:212-219 | Prefix 32 holds one address, prefix 0 all, and each further bit keeps the half that shares it. |
| EgressPolicy.AllowTcp | enclavia-egress/src/policy.rs:96-138 | Allows if and only if an address entry matches or some hostname entry for the port resolves to the destination; failed lookups permit nothing. |
| EgressPolicy.Allowlist.InjectResolverEntries | enclavia-egress/src/lib.rs:59-71 | Appends one trusted-source DNS entry per resolver, changes nothing else, and reports each. |
| EgressPolicy.InjectionDecision | enclavia-egress/src/lib.rs:59-71 | Injection adds exactly the resolvers' DNS port for the trusted source; for any other source no decision changes. |
| EgressConfig.ClassifyAllMeans | enclavia-protocol/src/egress_config.rs:350-412 | Success pairs entries with results one to one in order; a failure is the first failing entry's own. |
| EgressConfig.FromRaw | enclavia-protocol/src/egress_config.rs:345-461 | The loading loops compute the document's meaning, or its first error. |
| EgressConfig.AssembleFromCli | enclavia-protocol/src/egress_config.rs:627-648 | On success one document entry per flag, in order, that the loader accepts; a failure is the first flag's, else the first resolver's, else the loader's. What each flag says is `EgressFlags.FlagIff`. |
| EgressFlags.FlagIff | enclavia-protocol/src/egress_config.rs:528-602 | A flag reads as an entry if and only if its text is a host, a colon, a port and no tail, or a tail `/tcp` or `/udp` in any case: TCP without a tail; the port `*` or a number from 1 to 65535; the host an IPv4 address or block, or else a hostname and no IPv6 address. |
| EgressFlags.SpelledFlag | enclavia-protocol/src/egress_config.rs:528-602 | A flag written out of any host, any port and a tail says just these, whatever white space is around them. |
| EgressFlags.DefaultIsTcp | enclavia-protocol/src/egress_config.rs:514-527 | For every host and port the flag without a protocol reads as the one with `/tcp`. |
| EgressFlags.UdpReads | enclavia-protocol/src/egress_config.rs:514-527 | For every host and port the `/udp` flag reads as the same entry with UDP. |
| EgressFlags.FlagErrorIsTrue | enclavia-protocol/src/egress_config.rs:528-602 | The error of a refused flag is true of its text. |
| EgressGrammar.LoadsIff | enclavia-protocol/src/egress_config.rs:345-461 | A document loads if and only if its version is 1, every entry is TCP with a port that is `*` or not 0 and a host that is an address or a hostname, and open resolution has an IPv4 resolver. |
| EgressGrammar.LoadErrorIsTrue | enclavia-protocol/src/egress_config.rs:345-461 | The error of a document that does not load is true of it; an entry's error is the first failing entry's. |
| EgressGrammar.LoadMeans | enclavia-protocol/src/egress_config.rs:345-461 | A loaded allowlist permits a connection if and only if some document entry grants it, by address or by a name that resolves to it. |
| EgressGrammar.InjectedMeans | enclavia-egress/src/lib.rs:59-71 | After injection the daemon permits exactly that, and the trusted source's DNS to the document's IPv4 resolvers. |
| EgressGrammar.CliEntryLoads | enclavia-protocol/src/egress_config.rs:528-602 | What the flag parser lets through the loader takes: a TCP entry is kept, a UDP entry is refused with an error. |
| EgressGrammar.UdpFlagRefused | enclavia-protocol/src/egress_config.rs:525-527 | A UDP flag that parses and whose document is refused. |
| EgressGrammar.UdpNeverLoads | enclavia-protocol/src/egress_config.rs:525-527 | Whatever host and port a flag names, its UDP form parses and no document with that entry loads. |
| EgressGrammar.AssembledLoads | enclavia-protocol/src/egress_config.rs:604-648 | An assembled document loads if and only if every flag is TCP and open resolution has a resolver; then entries and hostnames together are as many as the flags, and resolvers as many as theirs: nothing is dropped. |
| EgressGrammar.FlagsMeanWhatTheySay | enclavia-protocol/src/egress_config.rs:604-648 | With an allowlist assembled from flags the daemon permits a connection if and only if some entry the flags' text spells grants it, by address or by name, or it is the trusted source's DNS to a resolver flag. |
| EgressGrammar.EntryHasFlag | enclavia-protocol/src/egress_config.rs:528-602 | Every document entry that is accepted and not ignored can be written as a flag, without a protocol or with `/tcp`, that reads back as that entry; with `/udp` it reads as its UDP form. |
| EgressFlow.Flow.PollRead | enclavia-egress/src/stack.rs:108-135 | Reads are the kept bytes in order, each as much of one chunk as fits, for every buffer size; an empty read with room left means the other half is gone and every kept byte was read. |
| EgressFlow.Flow.PollWrite | enclavia-egress/src/stack.rs:138-166 | Accepts a whole chunk, waits when the channel is full, or reports the closed flow. |
| EgressFlow.Flow.Drain | enclavia-egress/src/stack.rs:322-341 | Takes what the socket offers, at most 16384 octets (`CountIs`); the chunk is queued if and only if the channel is open and holds fewer than 64, and lost otherwise. |
| EgressFlow.Flow.Push | enclavia-egress/src/stack.rs:343-377 | Pending bytes first, then the queue, into the socket's send buffer exactly as the socket answers; it asks the socket to close when the queue runs dry and the forwarder is gone. |
| EgressFlow.PushedConserves | enclavia-egress/src/stack.rs:343-377 | What the socket took, what is pending and what is queued are what waited before, in order; a socket that takes everything leaves nothing. |
| EgressFlow.PushedMeans | enclavia-egress/src/stack.rs:343-377 | Call by call: the pending rest and the queue go in order, one send each, as far as the socket takes whole chunks, and stop exactly where it cannot send, takes less, or nothing is left. |
| EgressFlow.Flow.Service | enclavia-egress/src/stack.rs:315-389 | A flow's turn: the bytes taken, the chunk kept or lost, the bytes given, exactly when the socket is asked to close and exactly when the flow ends; both directions conserved. |
| EgressFlow.Flow.Release | enclavia-egress/src/stack.rs:391-394 | Removing a flow discards the socket's receive and send buffers, its pending rest and its queue, and nothing else. |
| EgressFlow.Flow.Transmit | enclavia-egress/src/stack.rs:311-312 | A poll moves bytes from the front of the send buffer out to the workload, in order. |
| EgressFlow.LosslessIff | enclavia-egress/src/stack.rs:325-338 | The kept bytes are all bytes taken if and only if no chunk was lost. |
| EgressFlow.Conservation | enclavia-egress/src/stack.rs:108-389 | While both halves exist: reads, carry, queue and receive buffer add up to what the workload sent if and only if no chunk was lost; bytes gone out, in the send buffer and waiting are the written ones. |
| EgressFlow.RemovedConservation | enclavia-egress/src/stack.rs:379-394 | Once removed: all the forwarder can still read adds up to what was sent if and only if no chunk was lost and the receive buffer was drained; the workload got all that was written if and only if nothing was pending or queued and the send buffer had gone out. |
| EgressFlow.SlowForwarderLoses | enclavia-egress/src/stack.rs:325-338 | A forwarder that does not read for 65 chunks loses one. |
| EgressFlow.ClosedFlowLoses | enclavia-egress/src/stack.rs:379-394 | A workload that sends 16 KiB and one byte and closes loses the byte. |
| EgressFlow.LastTurnLoses | enclavia-egress/src/stack.rs:360-394 | An answer the socket accepts in the last turn of a flow never goes out, though nothing is pending or queued. |
| EgressStack.Stack.AllocateFlow | enclavia-egress/src/stack.rs:593-634 | Tables one new flow under a free handle, or nothing when the socket cannot listen; endpoints stay unique. |
| EgressStack.Stack.HandleInbound | enclavia-egress/src/stack.rs:524-591 | An opening packet whose socket can listen adds exactly one flow, announced once, if and only if its 4-tuple has none; every IPv4 packet goes on to the socket layer and no other does. |
| EgressStack.Stack.Step | enclavia-egress/src/stack.rs:304-397 | Services every flow, keeping each drained chunk exactly when its channel is open and has room, and removes exactly those that ended with all they held; 4-tuples stay unique and every account is kept. |

## Left out

- Certificate chains, COSE, ECDSA, RSA-OAEP, AES-CBC, SHA-256, CBOR and base64: library primitives, taken as arbitrary functions.
- CMS decoding and decryption around the transcoder: thin calls into libraries.
- The JSON forms of chain links, rows and allowlists and their serde tolerances: only the decoded values are modelled.
- The order in which a JSON object's members are visited: the model takes any order, with duplicates.
- The synchronizer cluster, the Noise channel, the control dispatch, the HTTP client, the command line, FFI and bindings: I/O and user interface.
- Error texts: errors are constructors with the fields a caller can act on.
- Secret wiping on drop (`Zeroizing`, keyfile removal guards): no effect on the modelled state.
- `validate_json`, `load_or_empty` and the DNS mode parser: they would only add easy members.
- Length octets of DER values of 2^1016 octets or more: the emitted prefix is capped there, and such values cannot exist.
- parse_new_tcp_syn: the packet parser is an arbitrary function from packets to endpoints; only the version nibble is computed.
- iface.poll and smoltcp: the socket is two buffers and a sequence of answers; a poll is any number of `Deliver` and `Transmit` steps between turns, and the 64 KiB buffer sizes only show in the answers.
- EgressFlow.Flow.Push: a socket close request is reported as a flag; what the socket does with it is part of the next turn's answers.
- TranscoderTheorems.StrictDerFixedIff: strict DER here means definite minimal lengths and no constructed octet string; DER's rules on values and set order are not modelled.
- EgressStack.Stack.HandleInbound: waiting for room in the announcement channel is not modelled; the send either arrives or finds the receiver gone.
- PolicySoundness.AcceptedPolicyIsSound: principals, resources and operators other than the two string equalities are arbitrary, not AWS's own.
