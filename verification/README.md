# A Dafny model of libpkgstate

libpkgstate keeps the installed state of one package-management target: a
snapshot of packages with their receipts, an index of who owns which path, and a
protocol by which clients publish changes to it. This project models its core and
proves that core correct.

What is modelled, module by module:

- **The values** (`Model`, `Order`, `PackagePath`, `DigestText`,
  `Construction`): installed packages down to their requirements, origins and
  expansion steps, with the sort-and-refuse-duplicates constructors; package paths
  with their normal form and hierarchy; digests with their text form.
- **The bytes** (`Wire`, `Streams`, `SourceCodec`, `ReceiptCodec`,
  `SourceStreams`, `ReceiptStreams`, `GenerationCodec`): each value has a pure
  encoder and a parser, proved to be inverse; the writer and reader classes with
  their buffers, cursors and loops are methods proved against these. A generation
  record is accepted exactly when it is the encoding of a snapshot.
- **The identities** (`CanonicalRecord`, `Identities`, `PublicationIdentities`):
  domain-separated hash preimages, nested five levels deep. SHA-256 is an arbitrary
  function to 32 bytes. Nothing is assumed about it: each theorem says that two
  values with one identity are equal or names two different preimages with one
  digest. That some collision exists is a certainty, so naming the preimages is the
  point.
- **Snapshots** (`Snapshots`, `SnapshotStreams`): the constructor, the owner index
  and its agreement with a plain scan, the ownership inventory and the queries.
- **The publication protocol** (`Requests`, `RequestStreams`, `Receipts`, `Store`,
  `Runs`): requests checked against a snapshot, the projection that edits a sorted
  vector, the six receipt factories, the lock-scoped compare-and-publish over a
  backend known only by its contract, and whole runs of any number of clients.
- **The publication codec** (`PublicationCodec`, `PublicationStreams`,
  `CountLimit`): sealed request and receipt records that can be read only under
  the snapshot, or the request and prior state, that they speak of.

- **The layout** (`Layout`): golden records. Concrete values with the bytes they are
  written as, spelled out field by field without any encoder, so that byte order,
  field order, codes and limits are fixed by more than encoder and parser agreeing.

How to read it: a constructor or decoder that throws in C++ returns `None` or
`Failure` here. `Valid` predicates say what the C++ constructors guarantee; every
theorem that speaks of valid values has a partner saying that constructors and
decoders give only those. `Less` over a key is the C++ `operator<` of the key's
fields. `Sized` says that a length fits in 64 bits, as every C++ length does.
`CountLimit` builds a concrete valid snapshot and a request
made from it, so these preconditions can be met. Verify everything with
`dafny verify dfyconfig.toml`.

Two places where the code and what one would expect of it part:

- The request encoder has no limit on the number of deltas but the decoder refuses
  more than 2^20, so encoding is not always invertible. `RequestDecodes` gives the
  exact condition and `CountLimit` a request that fails it.
- The signed-integer reader accepts a negative zero. It is harmless because the
  canonical re-encoding refuses the record, which `SnapshotExact` covers.

## Model

| member | source | states |
|---|---|---|
| `GenerationCodec.SnapshotExact` | src/generation_codec.cpp:716-743 | A byte string decodes to a snapshot if and only if it is the encoding of that snapshot and the snapshot is one the constructor makes |
| `GenerationCodec.SnapshotRoundTrip` | src/generation_codec.cpp:703-743 | Decoding the encoding of any snapshot gives the same binding, packages, owner index and identities |
| `GenerationCodec.SnapshotPrefixFree` | src/generation_codec.cpp:703-714 | The encoder is injective, and no record is a proper prefix of another |
| `GenerationCodec.CutOrExtendedRefused` | src/generation_codec.cpp:169-173 | Every proper prefix and every proper extension of a record is refused |
| `GenerationCodec.BindingRecordExact` | src/generation_codec.cpp:673-701 | A binding record is accepted exactly when it is the encoding of the answer |
| `GenerationCodec.SnapshotParses` | src/generation_codec.cpp:716-733 | Whatever the reader accepts is a list of valid packages, all bound to the target that was read |
| `GenerationCodec.EncodeSnapshotBytes` | src/generation_codec.cpp:703-714 | The writer produces the specified snapshot record |
| `GenerationCodec.DecodeSnapshotBytes` | src/generation_codec.cpp:716-743 | The reader, the constructor and the re-encoding check accept what the specified decoder accepts, with the same answer |
| `GenerationCodec.EncodeBindingBytes` | src/generation_codec.cpp:673-680 | The writer produces the specified binding record |
| `GenerationCodec.DecodeBindingBytes` | src/generation_codec.cpp:682-701 | The reader and the re-encoding check accept what the specified decoder accepts |
| `GenerationCodec.DecodePackages` | src/generation_codec.cpp:727-731 | The loop over the counted packages reads what the list parser reads and stops at the same failure |
| `ReceiptCodec.ReceiptRoundTrip` | src/generation_codec.cpp:627-656 | Decoding an encoded installation receipt gives it back and leaves what follows; the re-sorting constructor leaves a sorted manifest alone |
| `ReceiptCodec.ReceiptParses` | src/generation_codec.cpp:639-656 | Every receipt that decodes is valid and bound to the given target |
| `ReceiptCodec.ControlRoundTrip` | src/generation_codec.cpp:431-539 | Decoding encoded control gives it back; the recomputed source identity still matches the build record |
| `ReceiptCodec.ControlParses` | src/generation_codec.cpp:464-539 | Control that decodes is valid: the build record names the identity of the decoded source |
| `ReceiptCodec.ReasonRoundTrip` | src/generation_codec.cpp:431-448 | Each of the four shapes of an installation reason comes back from its optional fields |
| `ReceiptCodec.EntryInverse` | src/generation_codec.cpp:541-625 | Decoding an encoded manifest entry gives it back and leaves what follows |
| `ReceiptCodec.EntryParses` | src/owned_entry.cpp:66-90 | Every entry that decodes has the shape its object kind demands |
| `ReceiptCodec.BindingRoundTrip` | src/generation_codec.cpp:192-216 | Decoding an encoded target binding gives it back and leaves what follows |
| `SourceCodec.SourceRoundTrip` | src/generation_codec.cpp:283-429 | Decoding an encoded source record gives it back: four sorted lists, nested origins and optional fields pass the re-sorting constructors unchanged |
| `SourceCodec.SourceParses` | src/generation_codec.cpp:339-429 | Every source record that decodes is valid |
| `SourceCodec.RequirementRoundTrip` | src/generation_codec.cpp:236-281 | Decoding an encoded requirement with its lists of lists gives it back |
| `SourceCodec.RequirementParses` | src/model.cpp:195-212 | A requirement that decodes has sorted distinct origins, each ending at the package it names |
| `SourceCodec.ArchitecturesParses` | src/model.cpp:294-310 | An architecture binding that decodes has sorted distinct declarations that contain what was selected |
| `SourceStreams.EncodeSource` | src/generation_codec.cpp:283-337 | The imperative source writer appends the specified bytes, in text or in record form |
| `SourceStreams.DecodeSource` | src/generation_codec.cpp:339-429 | The imperative source reader agrees with the pure parser on answer, failure and position |
| `SourceStreams.DecodeRequirement` | src/generation_codec.cpp:254-281 | The nested loops over origins and steps agree with the nested list parsers |
| `ReceiptStreams.EncodeReceipt` | src/generation_codec.cpp:627-637 | The imperative receipt writer appends the specified bytes |
| `ReceiptStreams.DecodeReceipt` | src/generation_codec.cpp:639-656 | The imperative receipt reader agrees with the pure parser on answer, failure and position |
| `ReceiptStreams.DecodeControl` | src/generation_codec.cpp:464-539 | The imperative control reader agrees with the pure parser, including the shape switch and the source check |
| `ReceiptStreams.DecodeEntry` | src/generation_codec.cpp:574-625 | The imperative entry reader agrees with the pure parser |
| `Wire.I64RoundTrip` | src/generation_codec.cpp:60-68 | Sign and magnitude never overflow a u64 and bring back every value from -2^63 to 2^63-1 |
| `Wire.NegativeZero` | src/generation_codec.cpp:130-144 | The byte form of negative zero reads as zero although it is not how zero is written, so only re-encoding can refuse it |
| `Wire.VectorRoundTrip` | src/generation_codec.cpp:162-168 | A counted list of nonempty elements comes back exactly when its length is within the count limit; the plausibility check never refuses it |
| `Wire.BytesRoundTrip` | src/generation_codec.cpp:152-161 | A length-prefixed byte string comes back and leaves what follows |
| `Wire.BEAt` | src/generation_codec.cpp:45-59 | Byte i of a k-byte integer is the value shifted right by 8 times (k - 1 - i) bits, taken modulo 256: the most significant byte comes first |
| `Wire.BEInverts` | src/generation_codec.cpp:103-129 | Every byte string is the writing of the integer it is read as, so reading and writing are a bijection |
| `Wire.U16At` | src/generation_codec.cpp:103-111 | Two bytes a, b are read as a * 256 + b |
| `Wire.I64Exact` | src/generation_codec.cpp:130-144 | A sign and a magnitude are accepted exactly within the asymmetric limit, with the value they stand for |
| `Wire.BoolExact` | src/generation_codec.cpp:145-151 | A flag byte is 0 or 1 and any other byte is refused |
| `Wire.CountExact` | src/publication_codec.cpp:172-181 | A count is accepted exactly when it is within the limit and within the bytes left |
| `Wire.DigestRoundTrip` | src/canonical_record.h:30-37 | A digest comes back both from its text form and from its record form |
| `Streams.ByteSink.BigEndian` | src/generation_codec.cpp:45-59 | The shift loop appends the big-endian bytes of the value |
| `Streams.ByteSink.Signed` | src/canonical_record.cpp:88-96 | Appends the sign byte and the magnitude of a signed value |
| `Streams.ByteSink.Digest` | src/canonical_record.h:30-37 | Appends a digest as text in a codec record and as version, algorithm and bytes in a hash preimage |
| `Streams.ByteSink.CanonicalRecord` | src/canonical_record.cpp:38-44 | A canonical record starts with the magic, the version and its domain |
| `Streams.Reader.BigEndian` | src/generation_codec.cpp:103-129 | The shift loop reads the integer that the parser reads and advances past it, or fails as truncated |
| `Streams.Reader.Signed` | src/generation_codec.cpp:130-144 | Reads a signed value as the parser does, with the asymmetric magnitude limit |
| `Streams.Reader.Count` | src/publication_codec.cpp:172-181 | Reads a count and refuses one above the limit or above the number of bytes left |
| `Streams.Reader.Bytes` | src/generation_codec.cpp:152-161 | Reads a length-prefixed byte string and refuses a length beyond the record |
| `DigestText.ParsePrint` | src/digest.cpp:66-147 | A text parses to a digest if and only if it is the digest printed |
| `DigestText.PrintOrder` | src/digest.cpp:162-175 | The byte order of digests is the lexicographic order of their printed texts |
| `DigestText.PrintAt` | src/digest.cpp:133-147 | The printed text is v1:sha256: and then the high and the low lower-case digit of every byte in turn |
| `DigestText.ParseDigest` | src/digest.cpp:66-113 | The colon search and the hexadecimal loop compute the specified parser |
| `DigestText.PrintDigest` | src/digest.cpp:133-147 | The printing loop produces the specified text |
| `Order.LessTotal` | src/digest.cpp:162-175 | The lexicographic order is irreflexive and any two different values are ordered one way |
| `Order.LessTransitive` | src/digest.cpp:162-175 | The lexicographic order is transitive |
| `PackagePath.IsPathIsFixed` | src/package_path.cpp:32-88 | A text is a clean list of good components if and only if parsing returns it unchanged |
| `PackagePath.ParseNormalizes` | src/package_path.cpp:32-88 | The result of parsing has no empty, dot or dot-dot component, keeps exactly the components that count, and parses to itself |
| `PackagePath.ParseAccepts` | src/package_path.cpp:32-88 | A text is accepted if and only if it is nonempty, relative, free of NUL and line separators, has no dot-dot component and has some component that is neither empty nor a dot |
| `PackagePath.SamePath` | src/package_path.cpp:48-88 | Two accepted texts give one path if and only if their filtered component lists are equal |
| `PackagePath.ParseShortens` | src/package_path.cpp:75-88 | Normalizing never lengthens a path |
| `PackagePath.Scan` | src/package_path.cpp:48-73 | The scanning loop collects the components that count and fails exactly when some component is dot-dot |
| `PackagePath.ParsePath` | src/package_path.cpp:32-88 | The whole imperative parser computes the specified one |
| `PackagePath.ParentRestores` | src/package_path.cpp:96-112 | The parent of a path is a path with the last component removed; parent, slash and filename rebuild the path |
| `PackagePath.AncestorIsPrefix` | src/package_path.cpp:114-120 | The byte test for ancestry holds if and only if the component list is a proper prefix |
| `PackagePath.AncestorIsInChain` | src/package_path.cpp:105-120 | A path is an ancestor if and only if iterating the parent reaches it; the iteration ends |
| `Order.NormalizeMeans` | src/model.cpp:60-66 | Sorting and refusing equal neighbours succeeds exactly on arrangements of a strictly ordered list and then returns that list |
| `Order.NormalizeFails` | src/model.cpp:60-66 | It fails if and only if two members have one key |
| `Order.LowerBound` | src/publication_projection.cpp:30-34 | Binary search finds the boundary between smaller keys and the rest |
| `Model.ProgramsByAction` | src/package_source_record.cpp:145-148 | Sorting programs by all their fields and refusing a repeated action is the same as normalizing them by action |
| `Model.CanonicalAtom` | src/model.cpp:15-38 | The character loop accepts exactly the canonical names |
| `Construction.SourceIgnoresOrder` | src/package_source_record.cpp:124-177 | A source record is the same value for every arrangement of its four lists and is refused if and only if some list repeats a key |
| `Construction.ReceiptIgnoresOrder` | src/installation_receipt.cpp:76-99 | An installation receipt is the same value for every arrangement of its manifest and is refused if and only if a path repeats |
| `Construction.OriginOrder` | src/model.cpp:165-193 | The sort key of an origin orders origins as the nested comparison of their fields does, and equal keys mean equal origins |
| `Construction.RequirementMade` | src/model.cpp:195-212 | A requirement is made exactly from distinct origins, at least one, whose expansions are empty or end at the required package, and keeps them in order |
| `Construction.MetadataMade` | src/model.cpp:255-268 | Metadata is made exactly from safe text and distinct licenses, at least one |
| `Construction.ArchitecturesMade` | src/model.cpp:294-310 | An architecture binding is made exactly when each side is undeclared or declares what was selected, without repetition |
| `Construction.SelectedProfileMade` | src/model.cpp:277-286 | A selected profile is made exactly from distinct declarations, at least one |
| `Construction.SourceMade` | src/package_source_record.cpp:124-177 | A source record carries exactly what it was made from, each list arranged by its key |
| `Construction.ReceiptMade` | src/installation_receipt.cpp:76-99 | An installation receipt carries exactly what it was made from, the manifest in path order |
| `Construction.LifecycleProgram` | src/package_source_record.cpp:206-211 | Binary search finds the program of an action exactly when there is one |
| `Snapshots.MakeSnapshotIgnoresOrder` | src/snapshot.cpp:65-110 | Every arrangement of the packages gives the same snapshot or the same refusal |
| `Requests.MakeRequestIgnoresOrder` | src/publication_request.cpp:291-342 | Every arrangement of the deltas gives the same request or the same refusal |
| `Snapshots.MadeSnapshot` | src/snapshot.cpp:65-110 | What the constructor returns is a snapshot with the same packages, strictly ordered by name |
| `Snapshots.SnapshotMade` | src/snapshot.cpp:65-110 | The constructor succeeds if and only if all packages have the target, no name repeats and no path is claimed twice under one identity |
| `Snapshots.IndexAgrees` | src/snapshot.cpp:75-98 | The index that registration builds names, for every path, exactly the packages that a plain scan finds |
| `Snapshots.ScanMeans` | src/snapshot.cpp:177-190 | Those are exactly the packages whose manifest has the path, once each and in name order |
| `Snapshots.ClaimsAgree` | src/snapshot.cpp:87-98 | The claims filed under a path are the identities of its owners, and the paths are in order |
| `Snapshots.OwnershipByRelation` | src/snapshot.cpp:23-44 | The ownership inventory depends only on which path belongs to which identity |
| `SnapshotStreams.Make` | src/snapshot.cpp:65-110 | The sorting, checking and registering loop computes the specified snapshot |
| `SnapshotStreams.IdentifyOwnership` | src/snapshot.cpp:23-44 | The loop that sorts owners in place and appends them hashes the specified inventory, and fails exactly on a repeated owner |
| `SnapshotStreams.IdentifySnapshot` | src/snapshot.cpp:46-61 | Appending to the record hashes the specified preimage |
| `SnapshotStreams.FindPackage` | src/snapshot.cpp:162-174 | Binary search by name finds what a linear scan finds |
| `SnapshotStreams.OwnsByName` | src/installed_package.cpp:33-42 | Binary search in a manifest finds exactly the paths it has |
| `SnapshotStreams.Owners` | src/snapshot.cpp:177-190 | Returns every package that has the path, once each, in name order, and no other |
| `SnapshotStreams.IsOwnedAgrees` | src/snapshot.cpp:192-196 | A path is owned if and only if some package owns it |
| `CanonicalRecord.PreimageInjective` | src/canonical_record.cpp:38-44 | Preimages of different domains or different bodies differ |
| `Identities.BindingBinds` | src/state_target_binding.cpp:14-29 | Bindings with one identity are equal, or two named preimages collide |
| `Identities.SourceBinds` | src/package_source_record.cpp:45-112 | Source records with one identity are equal, or two named preimages collide |
| `Identities.ControlBinds` | src/installed_control.cpp:54-88 | Controls with one identity are equal down to the source record, or two named preimages collide |
| `Identities.ReceiptBinds` | src/installation_receipt.cpp:17-72 | Installation receipts with one identity are equal down to control, source and binding, or two named preimages collide |
| `Identities.PackageBinds` | src/installed_package.cpp:13-20 | Packages with one identity are equal in content, or two named preimages collide |
| `Identities.SnapshotBinds` | src/snapshot.cpp:46-61 | Snapshots with one identity are equal in full content, or two named preimages collide at the level where they part |
| `Identities.OwnershipBinds` | src/snapshot.cpp:23-44 | Inventories with one ownership identity have the same paths with the same owners, or two named preimages collide |
| `Identities.SnapshotOwnershipBinds` | src/snapshot.cpp:23-44 | Snapshots with one ownership identity agree for every path on the identities that own it, or two named preimages collide |
| `Identities.SnapshotContentInjective` | src/snapshot.cpp:46-61 | The snapshot preimage fixes the target, the identity of every package in order and the ownership identity |
| `Identities.DoubleClaimCollides` | src/snapshot.cpp:30-35 | A snapshot refused for a path claimed twice has two different packages with one identity, so two named preimages collide |
| `PublicationIdentities.RequestBinds` | src/publication_request.cpp:112-146 | Requests with one identity are equal down to the content of the proposed packages, or two named preimages collide |
| `PublicationIdentities.PublicationReceiptBinds` | src/publication_receipt.cpp:174-209 | Publication receipts with one identity are equal, or two named preimages collide |
| `PublicationIdentities.OwnDomains` | include/libpkgstate/digest.h:379-475 | Each of the nine kinds of identity is taken in its own domain |
| `PublicationIdentities.KindsSeparate` | src/canonical_record.cpp:38-44 | Identities of different kinds coincide only in a collision of two named preimages |
| `PublicationIdentities.IdentifyRequest` | src/publication_request.cpp:112-146 | The appending loop hashes the specified request preimage |
| `PublicationIdentities.IdentifyPublicationReceipt` | src/publication_receipt.cpp:174-209 | The appending loop hashes the specified receipt preimage |
| `ReceiptStreams.IdentifyReceipt` | src/installation_receipt.cpp:17-72 | The appending loop hashes the specified installation-receipt preimage |
| `ReceiptStreams.IdentifyControl` | src/installed_control.cpp:54-88 | Appending hashes the specified control preimage |
| `Requests.MadeRequest` | src/publication_request.cpp:291-342 | A request that is made satisfies every check, for the snapshot it was made from |
| `Requests.RequestMade` | src/publication_request.cpp:291-342 | A request is made if and only if there is a delta, no package is named twice, a composed request has transaction evidence, and each delta meets its demands field by field; it then carries the snapshot identity, the target, the evidence and just these deltas |
| `Requests.DeltaMade` | src/publication_request.cpp:150-200 | A delta is made if and only if the proposed receipt retains the plan and the application evidence, a replacement changes the identity, and a removal names a line-safe package |
| `RequestStreams.ValidateAgainstSnapshot` | src/publication_request.cpp:63-110 | The search and the switch accept exactly the deltas that fit the snapshot |
| `RequestStreams.MakePublicationRequest` | src/publication_request.cpp:291-342 | The sorting and checking loop computes the specified request |
| `Requests.ApplyIsUpdate` | src/publication_projection.cpp:28-65 | Inserting, assigning or erasing at the lower bound is one map update, keeps the names strictly ordered and accounts for the size |
| `Requests.ApplyAllIsUpdate` | src/publication_projection.cpp:26-67 | All the edits together are the map updated by all the deltas; packages that no delta names are untouched |
| `Requests.ApplyAllTotal` | src/publication_projection.cpp:40-64 | Checking each delta against the edited vector succeeds if and only if every delta fits the original |
| `Requests.ProjectionTotal` | src/publication_projection.cpp:16-68 | A request always projects on the snapshot it was made from, unless a path is claimed twice under one identity, which exhibits a collision |
| `Requests.ProjectionRefines` | src/publication_projection.cpp:16-68 | The projected snapshot is valid, has the same target, maps every name as the deltas say and has the prior size plus installs minus removals |
| `Requests.ProjectionChanges` | src/publication_request.cpp:166-184 | Every projection changes the packages; if the identity stays the same all the same, a collision is exhibited |
| `RequestStreams.Edit` | src/publication_projection.cpp:30-64 | One pass of the loop makes the specified edit or fails |
| `RequestStreams.ProjectPublicationRequest` | src/publication_projection.cpp:16-68 | The loop over the local vector computes the specified projection |
| `Receipts.FactoriesAreTruthful` | src/publication_receipt.cpp:213-353 | Some factory builds a receipt, from some list of evidence, if and only if the receipt is truthful: a cited result is the projection, and staleness, durability and boundary match the outcome |
| `Receipts.EvidenceRetained` | src/publication_receipt.cpp:84-97 | Given a list of evidence, a factory builds exactly the truthful receipts that carry that evidence in identity order |
| `Receipts.ResultDemanded` | src/publication_receipt.cpp:99-119 | A factory that is handed a result accepts it if and only if it has the target and the identity of the projection |
| `Store.NoSilentPublication` | src/canonical_store.cpp:162-217 | Once the backend has been asked to publish, no later check fails and a truthful receipt of the reported outcome results; a stale comparison yields a receipt and never publishes |
| `Store.PublicationExact` | src/canonical_store.cpp:162-217 | States every field of the receipt from the request, the prior state, the format and the backend result, for an attempted and for a stale publication, and exactly when each of the two happens |
| `Store.BackendExact` | src/canonical_store.cpp:74-126 | Backend results are exactly those with ordered distinct evidence whose boundary and establishment match the outcome |
| `Store.BackendFactories` | src/canonical_store.cpp:74-126 | Each factory retains the evidence it is given, refuses a repetition, and demands a boundary where publication may have happened |
| `Store.NoImmediateReplay` | src/canonical_store.cpp:169-173 | Resubmitting a request right after it was established is stale and publishes nothing, unless a collision is exhibited |
| `Store.NormalizeEvidence` | src/canonical_store.cpp:20-31 | Evidence comes back as the strictly ordered arrangement, or fails exactly on a repetition |
| `Store.Transaction.Publish` | include/libpkgstate/canonical_store.h:156-167 | A publish shows exactly the given snapshot or leaves the state alone, as the contract lets the reported outcome say |
| `Store.CanonicalStore.CompareAndPublishUnderLock` | src/canonical_store.cpp:153-218 | The lock-scoped sequence returns the specified receipt, publishes at most once and leaves the store on the prior or on the projected snapshot |
| `Runs.NextIsSafe` | src/canonical_store.cpp:153-218 | Every step of every client keeps the safety invariant |
| `Runs.EveryRunIsSafe` | include/libpkgstate/canonical_store.h:132-196 | In every interleaving every receipt is truthful, says exactly whether the store moved to the projection, and the events link the first state to the last |
| `Runs.ReceiptsChain` | include/libpkgstate/canonical_store.h:157-159 | After a receipt that cites a result the next receipt observes that result; after one that rules a move out it observes the same state |
| `Runs.NoLostUpdate` | src/canonical_store.cpp:169-176 | An event that moves the store replaces the very snapshot its client built the request from, or a collision is exhibited |
| `Runs.EveryRunReplays` | src/publication_projection.cpp:26-67 | After any interleaving the installed packages are the first ones with the deltas of the moving events applied in order, and nothing else |
| `Runs.SecondMoveNeedsReturn` | src/canonical_store.cpp:169-173 | A request can expect the current state again only after another event brought that state back, or a collision is exhibited |
| `Runs.UndisturbedPublish` | src/canonical_store.cpp:153-218 | A client that reads, builds and publishes without interference moves the store to the projection and its receipt carries what the backend reported, or a collision is exhibited |
| `Runs.DisturbedPublish` | src/canonical_store.cpp:169-173 | A request built on a state that is no longer current leaves the store alone and gets the stale receipt naming the actual state |
| `PublicationCodec.SealExact` | src/publication_codec.cpp:282-312 | A record opens to a body if and only if it is that body with its checksum and within the size limit |
| `PublicationCodec.CorruptionDetected` | src/publication_codec.cpp:304-311 | A changed body under the old checksum is refused, or the two bodies collide |
| `PublicationCodec.UnsealRefusals` | src/publication_codec.cpp:291-312 | A record is over the limit, truncated or of a wrong checksum exactly under these conditions, each with its own category |
| `PublicationCodec.PrefixExact` | src/publication_codec.cpp:207-248 | The magic and the version bytes are accepted exactly; a wrong magic, a short record and another version have their own categories |
| `PublicationCodec.ProposedExact` | src/publication_codec.cpp:432-453 | The embedded generation record decodes to a package, under a target and a name, if and only if it is the record of that package with that target and name |
| `PublicationCodec.DeltaInverse` | src/publication_codec.cpp:523-536 | Decoding an encoded delta gives it back and leaves what follows |
| `PublicationCodec.RequestExact` | src/publication_codec.cpp:545-655 | A request record is accepted against a snapshot if and only if it is the encoding of a request made from that snapshot with at most 2^20 deltas |
| `PublicationCodec.RequestDecodes` | src/publication_codec.cpp:172-181 | An encoded request decodes if and only if it has at most 2^20 deltas, and is refused for its count otherwise: the encoder has no such limit |
| `CountLimit.EncodedButNotDecodable` | src/publication_codec.cpp:512-543 | A concrete snapshot and request of 2^20 + 1 removals that encodes within the size limit and is refused by the decoder |
| `PublicationCodec.ForeignSnapshotRefused` | src/publication_codec.cpp:559-573 | A request record is refused under a snapshot with another identity |
| `PublicationCodec.RequestRefusals` | src/publication_codec.cpp:636-642 | A sealed request with bytes after it is refused for trailing data, and one under another identity for an identity mismatch |
| `PublicationCodec.RequestPrefixRefused` | src/publication_codec.cpp:218-232 | A sealed request record with another magic or version is refused in that category |
| `PublicationCodec.EvidenceWithinLimit` | src/publication_codec.cpp:34-35 | A receipt within 64 MiB has at most 2^20 evidence items, so the count limit never refuses an encodable receipt |
| `PublicationCodec.ReceiptExact` | src/publication_codec.cpp:685-841 | A receipt record is accepted under a request and a prior state if and only if it is the encoding of a receipt some factory builds for them |
| `PublicationCodec.RebuildSound` | src/publication_codec.cpp:751-825 | Whatever the decoder rebuilds is truthful, so a cited result is the projection |
| `PublicationCodec.RebuildComplete` | src/publication_codec.cpp:751-825 | Every truthful receipt is rebuilt from its own fields |
| `PublicationCodec.ForeignContextRefused` | src/publication_codec.cpp:714-730 | A receipt record is refused under another request and under another prior state |
| `PublicationCodec.ReceiptRefusals` | src/publication_codec.cpp:751-829 | A sealed receipt with bytes after it is refused for trailing data, and one under another identity for an identity mismatch |
| `PublicationCodec.ReceiptPrefixRefused` | src/publication_codec.cpp:234-248 | A sealed receipt record with another magic or version is refused in that category |
| `PublicationStreams.AppendChecksum` | src/publication_codec.cpp:282-289 | Appends the checksum, or fails and appends nothing |
| `PublicationStreams.EncodeRequestBytes` | src/publication_codec.cpp:512-543 | The writer produces the specified request record or the size failure |
| `PublicationStreams.DecodeRequestBytes` | src/publication_codec.cpp:545-655 | The reader and the checks after it give the specified answer and failure category |
| `PublicationStreams.EncodeReceiptBytes` | src/publication_codec.cpp:657-683 | The writer produces the specified receipt record or the size failure |
| `PublicationStreams.DecodeReceiptBytes` | src/publication_codec.cpp:685-841 | The reader and the checks after it give the specified answer and failure category |
| `PublicationStreams.DecodeProposedPackage` | src/publication_codec.cpp:439-453 | Decodes the embedded snapshot and demands its target, its single package and the name |
| `Layout.RecordFields` | tests/protocol/canonical_record_test.cpp:38-50 | The integers, strings and digest of the library test record, byte by byte |
| `Layout.Codes` | include/libpkgstate/owned_entry.h:22-43 | Every enumeration with the codes the records carry |
| `Layout.EmptySnapshot` | src/generation_codec.cpp:703-714 | The record of a snapshot without packages, byte by byte up to the printed digests |
| `Layout.SourceLayout` | src/generation_codec.cpp:283-337 | A source record with one value in every list, field by field |
| `Layout.NeedLayout` | src/generation_codec.cpp:236-252 | A requirement with an origin and two expansion steps, field by field |
| `Layout.RegularLayout` | src/generation_codec.cpp:541-572 | A regular file with a hard-link anchor and a rejected object, field by field |
| `Layout.SymlinkLayout` | src/generation_codec.cpp:541-572 | A symbolic link, field by field |
| `Layout.DeviceLayout` | src/generation_codec.cpp:541-572 | A block device, field by field |
| `Layout.ReasonLayout` | src/generation_codec.cpp:431-446 | The four shapes of an installation reason |
| `Layout.ReceiptLayout` | src/generation_codec.cpp:627-637 | An installation receipt with one entry, field by field |
| `Layout.RemovalLayout` | src/publication_codec.cpp:512-543 | A request that removes one package, field by field |
| `Layout.PublishedLayout` | src/publication_codec.cpp:657-683 | A published receipt with one item of evidence, field by field |
| `Layout.PreimageLayout` | src/canonical_record.cpp:38-44 | The magic, version and domain before a hash preimage |
| `Layout.SnapshotBodyLayout` | src/snapshot.cpp:23-61 | The snapshot preimage and the ownership inventory, field by field |
| `Layout.ReceiptBodyLayout` | src/installation_receipt.cpp:17-72 | The installation-receipt preimage, field by field |
| `Layout.ControlBodyLayout` | src/installed_control.cpp:54-88 | The control preimage, field by field |
| `Layout.RequestBodyLayout` | src/publication_request.cpp:112-146 | The preimage of a request that replaces one package, field by field |
| `Layout.ReceiptRecordLayout` | src/publication_receipt.cpp:174-209 | The preimage of a stale receipt, field by field |
| `Layout.ObjectLimits` | src/owned_entry.cpp:66-156 | The edges of what an object may be: mode, nanoseconds and the parts that each kind demands or forbids |
| `Layout.ByteLimits` | src/model.cpp:15-58 | Which single bytes names, lines and texts may hold |
| `Layout.ProvenanceLimits` | src/model.cpp:150-158 | Lines and columns start at one; document and path are nonempty lines of text |
| `Layout.ReleaseLimits` | src/package_release.cpp:14-36 | Release numbers start at one and a version has no slash |
| `Layout.NameExamples` | tests/unit/reference_provenance_test.cpp:12-20 | Names that the library accepts and refuses |

## Left out

- SHA-256 and the OpenSSL calls: an uninterpreted function; failures of the library context are not modelled.
- Concrete storage, durability, locking and crash recovery: they live in another library; a transaction is one atomic step and what the backend reports is an input constrained by its contract.
- A backend whose `publish` throws: the contract demands that ordinary outcomes are returned, so a throw is outside it.
- `canonical_store::read`: in a run a client reads the current snapshot in one step.
- Exception classes and messages: success or failure only, except that the publication codec keeps its error categories; the generation codec wraps every failure into one.
- Accessors, equality and ordering boilerplate, moves, reservation and allocation failure.
- Stored identities: except in a snapshot, an identity is computed from the content where C++ keeps it in a field.
- The fourteen digests of a build provenance are one sequence of fourteen digests; the distinct C++ identity types are all one digest type.
- The canonical record's check of its domain text: domains are a fixed enumeration whose texts all pass it.
- The two readers and the three writers of the C++ code are one class each, with the digest form and the count limit as fields.
- `std::sort` is an insertion sort; `NormalizeMeans` shows that no result depends on the algorithm or on its stability.
- The vectors that C++ edits in place are local sequences that the methods reassign; no aliasing is possible there.
- The filter that lists the lifecycle requirements of one action: an easy member.
- The public string overloads and stream operators of paths and digests.
- GenerationCodec.SnapshotRoundTrip: asks that the number of packages fits in 64 bits, as `std::size_t` makes it.
- PublicationCodec.RequestExact: carries the limit of 2^20 deltas, because the round trip fails above it; see `RequestDecodes`.
- Store.CanonicalStore.CompareAndPublishUnderLock: does not model waiting for the lock; interleaving is the subject of `Runs`.
