/** Golden records: concrete values with the bytes they are written as, field by field.
    The expected bytes are spelled out here and mention no encoder. */
module Layout {
  import opened Core
  import opened Wire
  import opened CanonicalRecord
  import opened Model
  import opened SourceCodec
  import opened ReceiptCodec
  import opened Snapshots
  import opened GenerationCodec
  import opened Requests
  import opened Receipts
  import PC = PublicationCodec
  import DigestText

  // ---- how the expected bytes are spelled ---------------------------------------------

  function N(n: Byte): Bytes { [0, 0, 0, 0, 0, 0, 0, n] }

  /** A short string with its length. */
  function L(s: Bytes): Bytes
    requires |s| < 256
  {
    N(|s|) + s
  }

  /** A digest of 32 equal bytes. */
  function Mark(n: Byte): Digest { seq(32, _ => n) }

  /** The printed form of such a digest with its length. */
  function T(d: Digest): Bytes { N(74) + DigestText.Print(d) }

  lemma SmallNumber(n: Byte)
    ensures EncU64(n) == N(n) && EncU32(n) == [0, 0, 0, n] && EncU16(n) == [0, n]
  {
    Zeros();
    assert n / 256 == 0;
    assert BE(n, 8) == BE(0, 7) + [n];
    assert BE(n, 4) == BE(0, 3) + [n];
    assert BE(n, 2) == BE(0, 1) + [n];
  }

  lemma Zeros()
    ensures BE(0, 1) == [0] && BE(0, 3) == [0, 0, 0] && BE(0, 7) == [0, 0, 0, 0, 0, 0, 0]
  {
  }

  lemma Short(s: Bytes)
    requires |s| < 256
    ensures EncBytes(s) == L(s)
  {
    SmallNumber(|s|);
  }

  lemma Printed(d: Digest)
    ensures EncDigest(Text, d) == T(d)
  {
    DigestText.PrintShape(d);
    SmallNumber(74);
  }

  lemma Empty<X>(enc: X -> Bytes)
    ensures EncVector(enc, []) == N(0)
  {
    SmallNumber(0);
  }

  lemma One<X>(enc: X -> Bytes, x: X)
    ensures EncVector(enc, [x]) == N(1) + enc(x)
  {
    SmallNumber(1);
    assert EncList(enc, [x]) == enc(x) + EncList(enc, []);
  }

  // ---- the canonical record ---------------------------------------------------------------

  lemma WideNumbers()
    ensures EncU16(0x0123) == [0x01, 0x23] && EncU32(0x456789ab) == [0x45, 0x67, 0x89, 0xab]
  {
    assert BE(0x01, 1) == [0x01] && BE(0x45, 1) == [0x45];
    assert BE(0x4567, 2) == BE(0x45, 1) + [0x67];
    assert BE(0x456789, 3) == BE(0x4567, 2) + [0x89];
    assert BE(0x456789ab, 4) == BE(0x456789, 3) + [0xab];
  }

  lemma WidestNumber()
    ensures EncU64(0xcdef0123456789ab) == [0xcd, 0xef, 0x01, 0x23, 0x45, 0x67, 0x89, 0xab]
  {
    assert BE(0xcd, 1) == [0xcd];
    assert BE(0xcdef, 2) == BE(0xcd, 1) + [0xef];
    assert BE(0xcdef01, 3) == BE(0xcdef, 2) + [0x01];
    assert BE(0xcdef0123, 4) == BE(0xcdef01, 3) + [0x23];
    assert BE(0xcdef012345, 5) == BE(0xcdef0123, 4) + [0x45];
    assert BE(0xcdef01234567, 6) == BE(0xcdef012345, 5) + [0x67];
    assert BE(0xcdef0123456789, 7) == BE(0xcdef01234567, 6) + [0x89];
    assert BE(0xcdef0123456789ab, 8) == BE(0xcdef0123456789, 7) + [0xab];
  }

  /** The integers, strings and digest of the library's own test record, byte by byte. */
  lemma RecordFields(d: Digest)
    ensures EncBool(true) == [1]
    ensures EncU16(0x0123) == [0x01, 0x23]
    ensures EncU32(0x456789ab) == [0x45, 0x67, 0x89, 0xab]
    ensures EncU64(0xcdef0123456789ab) == [0xcd, 0xef, 0x01, 0x23, 0x45, 0x67, 0x89, 0xab]
    ensures EncBytes([97, 108, 112, 104, 97]) == [0, 0, 0, 0, 0, 0, 0, 5, 97, 108, 112, 104, 97]
    ensures EncBytes([]) == [0, 0, 0, 0, 0, 0, 0, 0]
    ensures EncDigest(Record, d) == [0, 1, 0, 1, 0, 0, 0, 0, 0, 0, 0, 32] + d
  {
    hide BE, EncU16, EncU32, EncU64, EncBytes;
    WideNumbers();
    WidestNumber();
    Short([97, 108, 112, 104, 97]);
    Short([]);
    Short(d);
    SmallNumber(1);
  }

  // ---- codes -----------------------------------------------------------------------------------

  /** Every enumeration with the codes that the records carry. */
  lemma Codes()
    ensures [PackageMember.Code(), ProfileMember.Code()] == [1, 2]
    ensures [PreInstall.Code(), PostInstall.Code(), PreRemove.Code(), PostRemove.Code()] == [1, 2, 3, 4]
    ensures [Regular.Code(), Directory.Code(), Symlink.Code(), Fifo.Code(), CharacterDevice.Code(), BlockDevice.Code(),
             Socket.Code(), ObjectKind.Other.Code()] == [1, 2, 3, 4, 5, 6, 7, 8]
    ensures [IncomingPayload.Code(), RetainedExisting.Code()] == [1, 2]
    ensures [Incoming.Code(), PriorInstalled.Code()] == [1, 2]
    ensures forall p, s, i :: [ExplicitRequest.Code(), RuntimeDependency(p).Code(), ProfileMembership(s, i).Code(),
                               SystemPolicy(p).Code()] == [1, 2, 3, 4]
    ensures forall n, x, p, d, e :: [Install(p, d, e).Code(), Replace(x, p, d, e).Code(), Remove(n, x, d, e).Code()] == [1, 2, 3]
    ensures [Published.Code(), StaleExpectedState.Code(), RequestRejected.Code(), FailedBeforePublication.Code(),
             PublishedDurabilityUnconfirmed.Code(), Indeterminate.Code()] == [1, 2, 3, 4, 5, 6]
    ensures [NotAttempted.Code(), Confirmed.Code(), Unconfirmed.Code(), Unknown.Code()] == [1, 2, 3, 4]
    ensures [NoBoundary.Code(), CompleteStateObjectReplace.Code(), ImmutableGenerationSelection.Code()] == [1, 2, 3]
  {
  }

  // ---- generation records -----------------------------------------------------------------------

  /** The record of a snapshot without packages. */
  lemma EmptySnapshot(s: Snapshot)
    requires s.packages == []
    ensures EncodeSnapshot(s)
         == [112, 107, 103, 115, 116, 97, 116, 101, 45, 115, 110, 97, 112, 115, 104, 111, 116, 0] + [0, 1] + [0, 1]
            + T(s.binding.target) + T(s.binding.store) + T(s.binding.root) + T(s.binding.backend) + T(s.binding.domain) + N(0)
  {
    hide EncU16, EncDigest, EncVector, N, T;
    SmallNumber(1);
    Empty(EncPackage);
    var b := s.binding;
    Printed(b.target);
    Printed(b.store);
    Printed(b.root);
    Printed(b.backend);
    Printed(b.domain);
  }

  // One value of every kind in each list, all parts different.

  function Place(n: Byte): Provenance
    requires n + 1 < 256
  {
    Provenance([n], [n, n], n, n + 1)
  }

  function PlaceBytes(n: Byte): Bytes
    requires n + 1 < 256
  {
    L([n]) + L([n, n]) + [0, 0, 0, n] + [0, 0, 0, n + 1]
  }

  lemma PlaceLayout(n: Byte)
    requires n + 1 < 256
    ensures EncProvenance(Place(n)) == PlaceBytes(n)
  {
    Short([n]);
    Short([n, n]);
    SmallNumber(n);
    SmallNumber(n + 1);
  }

  function Need(n: Byte): Requirement
    requires n + 3 < 256
  {
    Requirement([n], [Origin(Place(n), [Step([64, n], ProfileMember, [64, n + 1], Place(n + 1)),
                                        Step([64, n + 1], PackageMember, [n], Place(n + 2))])])
  }

  function NeedBytes(n: Byte): Bytes
    requires n + 3 < 256
  {
    L([n]) + N(1) + PlaceBytes(n) + N(2)
    + L([64, n]) + [2] + L([64, n + 1]) + PlaceBytes(n + 1)
    + L([64, n + 1]) + [1] + L([n]) + PlaceBytes(n + 2)
  }

  lemma StepLayout(x: Step, n: Byte)
    requires n + 1 < 256 && |x.profile| < 256 && |x.member| < 256 && x.provenance == Place(n)
    ensures EncStep(x) == L(x.profile) + [x.kind.Code()] + L(x.member) + PlaceBytes(n)
  {
    hide EncBytes, EncProvenance, L, PlaceBytes, Place;
    PlaceLayout(n);
    Short(x.profile);
    Short(x.member);
  }

  lemma Two<X>(enc: X -> Bytes, x: X, y: X)
    ensures EncVector(enc, [x, y]) == N(2) + enc(x) + enc(y)
  {
    SmallNumber(2);
    assert [x, y][1..] == [y];
    assert EncList(enc, [y]) == enc(y) + EncList(enc, []);
  }

  /** A requirement with one origin reached through two expansion steps. */
  lemma NeedLayout(n: Byte)
    requires n + 3 < 256
    ensures EncRequirement(Need(n)) == NeedBytes(n)
  {
    hide EncBytes, EncProvenance, EncStep, L, N, PlaceBytes, Place, EncVector;
    var o := Need(n).origins[0];
    var x, y := o.expansion[0], o.expansion[1];
    One(EncOrigin, o);
    Two(EncStep, x, y);
    PlaceLayout(n);
    StepLayout(x, n + 1);
    StepLayout(y, n + 2);
    Short([n]);
  }

  function GoldenSource(): Source {
    Source(Release(Mark(1), [97], [98], 2), Metadata([99], Some([100]), None, [[101]]), [Need(110)],
           [Program(PreRemove, PosixShell, [102])], [LifecycleRequirement(PostInstall, Need(120))],
           Architectures([[103]], [[104]], [105], [106]), [SelectedProfile([64, 107], Mark(3), [Place(4)])], Mark(5))
  }

  lemma SourceHeadLayout()
    ensures EncSourceHead(Text, GoldenSource())
         == T(Mark(1)) + L([97]) + L([98]) + [0, 0, 0, 2] + L([99]) + ([1] + L([100])) + [0] + (N(1) + L([101]))
  {
    hide EncBytes, EncDigest, L, N, T, Mark, EncVector, EncU32, Need, Place;
    Printed(Mark(1));
    Short([97]);
    Short([98]);
    Short([99]);
    Short([100]);
    Short([101]);
    SmallNumber(2);
    One(EncBytes, [101]);
  }

  lemma SourceMiddleLayout()
    ensures EncSourceMiddle(GoldenSource())
         == N(1) + NeedBytes(110) + (N(1) + ([3, 1] + L([102]))) + (N(1) + ([2] + NeedBytes(120)))
  {
    hide EncBytes, EncRequirement, L, N, Mark, EncVector, Need, NeedBytes, Place;
    NeedLayout(110);
    NeedLayout(120);
    Short([102]);
    One(EncRequirement, Need(110));
    One(EncProgram, Program(PreRemove, PosixShell, [102]));
    One(EncLifecycleRequirement, LifecycleRequirement(PostInstall, Need(120)));
  }

  lemma SourceTailLayout()
    ensures EncSourceTail(Text, GoldenSource())
         == N(1) + L([103]) + (N(1) + L([104])) + L([105]) + L([106])
            + (N(1) + (L([64, 107]) + T(Mark(3)) + (N(1) + PlaceBytes(4)))) + T(Mark(5))
  {
    hide EncBytes, EncDigest, L, N, T, Mark, EncVector, Need, Place, PlaceBytes, EncProvenance;
    Short([103]);
    Short([104]);
    Short([105]);
    Short([106]);
    Short([64, 107]);
    Printed(Mark(3));
    Printed(Mark(5));
    PlaceLayout(4);
    One(EncBytes, [103]);
    One(EncBytes, [104]);
    One(EncProvenance, Place(4));
    One(ProfileEnc(Text), SelectedProfile([64, 107], Mark(3), [Place(4)]));
  }

  /** A source record with one value in every list. */
  lemma SourceLayout()
    ensures EncSource(Text, GoldenSource())
         == (T(Mark(1)) + L([97]) + L([98]) + [0, 0, 0, 2] + L([99]) + ([1] + L([100])) + [0] + (N(1) + L([101])))
            + (N(1) + NeedBytes(110) + (N(1) + ([3, 1] + L([102]))) + (N(1) + ([2] + NeedBytes(120))))
            + (N(1) + L([103]) + (N(1) + L([104])) + L([105]) + L([106])
               + (N(1) + (L([64, 107]) + T(Mark(3)) + (N(1) + PlaceBytes(4)))) + T(Mark(5)))
  {
    hide EncSourceHead, EncSourceMiddle, EncSourceTail, GoldenSource, L, N, T, Mark, NeedBytes, PlaceBytes;
    SourceHeadLayout();
    SourceMiddleLayout();
    SourceTailLayout();
  }

  // ---- manifest entries ---------------------------------------------------------------------------

  /** A regular file with a hard-link anchor and a displaced object. */
  lemma RegularLayout()
    ensures EncEntry(Text, Entry([97], ObjectMetadata(Regular, 0x1A4, 1, 2, -3, 4, Some(5), Some(Mark(6)), None, None, Some([98])),
                                 RetainedExisting, Some(Rejection(Incoming, Mark(7)))))
         == L([97]) + ([1] + [0, 0, 1, 0xA4] + N(1) + N(2) + ([1] + N(3)) + [0, 0, 0, 4])
            + ([1] + N(5) + ([1] + T(Mark(6))) + [0] + [0] + ([1] + L([98]))) + [2] + ([1] + ([1] + T(Mark(7))))
  {
    hide EncBytes, EncDigest, L, N, T, Mark, EncU32, EncU64;
    Mode();
    Short([97]);
    Short([98]);
    Printed(Mark(6));
    Printed(Mark(7));
    SmallNumber(1);
    SmallNumber(2);
    SmallNumber(3);
    SmallNumber(4);
    SmallNumber(5);
  }

  lemma Mode()
    ensures EncU32(0x1A4) == [0, 0, 1, 0xA4]
  {
    assert BE(0, 2) == [0, 0];
    assert BE(1, 3) == BE(0, 2) + [1];
    assert BE(0x1A4, 4) == BE(1, 3) + [0xA4];
  }

  lemma HeadLayout(kind: ObjectKind, o: ObjectMetadata)
    requires o == ObjectMetadata(kind, 1, 2, 3, 4, 5, o.size, o.content, o.symlink, o.device, o.anchor)
    ensures EncObjectHead(o) == [kind.Code()] + [0, 0, 0, 1] + N(2) + N(3) + ([0] + N(4)) + [0, 0, 0, 5]
  {
    hide N, EncU32, EncU64;
    SmallNumber(1);
    SmallNumber(2);
    SmallNumber(3);
    SmallNumber(4);
    SmallNumber(5);
  }

  /** A symbolic link. */
  lemma SymlinkLayout()
    ensures EncEntry(Text, Entry([97], ObjectMetadata(Symlink, 1, 2, 3, 4, 5, None, None, Some([98]), None, None), IncomingPayload, None))
         == L([97]) + ([3] + [0, 0, 0, 1] + N(2) + N(3) + ([0] + N(4)) + [0, 0, 0, 5])
            + ([0] + [0] + ([1] + L([98])) + [0] + [0]) + [1] + [0]
  {
    hide EncBytes, EncDigest, L, N, EncObjectHead;
    Short([97]);
    Short([98]);
    HeadLayout(Symlink, ObjectMetadata(Symlink, 1, 2, 3, 4, 5, None, None, Some([98]), None, None));
  }

  lemma DeviceTail(o: ObjectMetadata)
    requires o.size.None? && o.content.None? && o.symlink.None? && o.device == Some(Device(6, 7)) && o.anchor.None?
    ensures EncObjectTail(Text, o) == [0] + [0] + [0] + ([1] + (N(6) + N(7))) + [0]
  {
    hide N, EncU64;
    SmallNumber(6);
    SmallNumber(7);
  }

  /** A block device with its two numbers. */
  lemma DeviceLayout()
    ensures EncEntry(Text, Entry([97], ObjectMetadata(BlockDevice, 1, 2, 3, 4, 5, None, None, None, Some(Device(6, 7)), None), IncomingPayload, None))
         == L([97]) + ([6] + [0, 0, 0, 1] + N(2) + N(3) + ([0] + N(4)) + [0, 0, 0, 5])
            + ([0] + [0] + [0] + ([1] + (N(6) + N(7))) + [0]) + [1] + [0]
  {
    hide EncBytes, L, N, EncObjectHead, EncObjectTail;
    var o := ObjectMetadata(BlockDevice, 1, 2, 3, 4, 5, None, None, None, Some(Device(6, 7)), None);
    Short([97]);
    HeadLayout(BlockDevice, o);
    DeviceTail(o);
  }

  // ---- control and receipts -----------------------------------------------------------------------

  /** The four shapes of an installation reason. */
  lemma ReasonLayout()
    ensures EncReason(Text, ExplicitRequest) == [1, 0, 0, 0]
    ensures EncReason(Text, RuntimeDependency([97])) == [2] + ([1] + L([97])) + [0, 0]
    ensures EncReason(Text, ProfileMembership([64, 97], Mark(1))) == [3, 0] + ([1] + (L([64, 97]) + T(Mark(1)))) + [0]
    ensures EncReason(Text, SystemPolicy([97])) == [4, 0, 0] + ([1] + L([97]))
  {
    hide EncBytes, EncDigest, L, T, Mark;
    Short([97]);
    Short([64, 97]);
    Printed(Mark(1));
  }

  /** An installation receipt over its control, manifest and digests; the fourteen build
      identities follow one another without a count. */
  lemma ReceiptLayout(source: Source, build: seq<Digest>, binding: Binding, e: Entry)
    requires |build| == BUILD_DIGESTS
    ensures EncReceipt(Receipt(Control(source, ExplicitRequest, build), binding, [e], Mark(1), Mark(2), Some(Mark(3))))
         == [0, 1] + (EncSource(Text, source) + ([1, 0, 0, 0] + EncList(DigestEnc(Text), build)))
            + (N(1) + EncEntry(Text, e) + T(Mark(1)) + T(Mark(2)) + ([1] + T(Mark(3))))
    ensures EncList(DigestEnc(Text), [Mark(1), Mark(2)]) == T(Mark(1)) + T(Mark(2))
  {
    hide EncSource, EncEntry, EncDigest, N, T, Mark, EncVector, EncU16, EncReason;
    SmallNumber(1);
    ReasonLayout();
    One(EntryEnc(Text), e);
    Printed(Mark(1));
    Printed(Mark(2));
    Printed(Mark(3));
    assert EncList(DigestEnc(Text), [Mark(1), Mark(2)][1..]) == EncDigest(Text, Mark(2)) + EncList(DigestEnc(Text), []);
  }

  // ---- publication records ------------------------------------------------------------------------

  lemma ThreePrinted(a: Digest, b: Digest, c: Digest)
    ensures EncDigest(Text, a) + EncDigest(Text, b) + EncDigest(Text, c) == T(a) + T(b) + T(c)
  {
    hide EncDigest, T;
    Printed(a);
    Printed(b);
    Printed(c);
  }

  lemma RemovalDelta(prior: Digest)
    ensures PC.EncDelta(Remove([97], prior, Mark(1), Mark(2)))
         == [3] + L([97]) + T(Mark(1)) + T(Mark(2)) + ([1] + T(prior)) + [0]
  {
    hide EncBytes, EncDigest, L, T, Mark;
    Short([97]);
    Printed(Mark(1));
    Printed(Mark(2));
    Printed(prior);
  }

  lemma RemovalTail(r: Request, prior: Digest)
    requires r.deltas == [Remove([97], prior, Mark(1), Mark(2))] && r.transaction == Some(Mark(3))
    ensures PC.RequestTail(r)
         == N(1) + ([3] + L([97]) + T(Mark(1)) + T(Mark(2)) + ([1] + T(prior)) + [0]) + ([1] + T(Mark(3)))
  {
    hide EncDigest, N, L, T, Mark, EncVector, PC.EncDelta;
    One(PC.EncDelta, r.deltas[0]);
    RemovalDelta(prior);
    Printed(Mark(3));
  }

  /** A request that removes one package. */
  lemma RemovalLayout(expected: Digest, binding: Binding, prior: Digest)
    ensures var r := Request(expected, binding, [Remove([97], prior, Mark(1), Mark(2))], Some(Mark(3)));
            PC.RequestPayload(r) ==
              [90, 76, 83, 80, 82, 81, 83, 84] + ([0, 1] + (T(RequestId(r)) + T(expected) + T(BindingId(binding))
              + (N(1) + ([3] + L([97]) + T(Mark(1)) + T(Mark(2)) + ([1] + T(prior)) + [0]) + ([1] + T(Mark(3))))))
  {
    hide EncDigest, N, L, T, Mark, EncU16, RequestId, BindingId, PC.RequestTail;
    var r := Request(expected, binding, [Remove([97], prior, Mark(1), Mark(2))], Some(Mark(3)));
    SmallNumber(1);
    ThreePrinted(RequestId(r), expected, BindingId(binding));
    RemovalTail(r, prior);
  }

  lemma PublishedTail(rc: PublicationReceipt, resulting: Digest)
    requires rc.outcome.Published? && rc.durability.Confirmed? && rc.atomicity.ImmutableGenerationSelection?
    requires rc.resulting == Some(resulting) && rc.evidence == [Mark(1)]
    ensures PC.ReceiptTail(rc) == [1, 2, 3] + ([1] + T(resulting)) + (N(1) + T(Mark(1)))
  {
    hide EncDigest, N, T, Mark, EncVector;
    One(DigestEnc(Text), Mark(1));
    Printed(resulting);
    Printed(Mark(1));
  }

  lemma PublishedContext(rc: PublicationReceipt)
    requires rc.format == [97]
    ensures PC.ReceiptContext(rc) == T(rc.actual) + T(BindingId(rc.binding)) + L([97])
  {
    hide EncBytes, EncDigest, L, T, BindingId;
    Short([97]);
    Printed(rc.actual);
    Printed(BindingId(rc.binding));
  }

  /** A published receipt with one item of evidence. */
  lemma PublishedLayout(rc: PublicationReceipt, resulting: Digest)
    requires rc.outcome.Published? && rc.durability.Confirmed? && rc.atomicity.ImmutableGenerationSelection?
    requires rc.format == [97] && rc.resulting == Some(resulting) && rc.evidence == [Mark(1)]
    ensures PC.ReceiptPayload(rc)
         == [90, 76, 83, 80, 82, 67, 80, 84] + ([0, 1] + (T(PublicationReceiptId(rc)) + T(rc.request) + T(rc.expected)
            + (T(rc.actual) + T(BindingId(rc.binding)) + L([97]) + ([1, 2, 3] + ([1] + T(resulting)) + (N(1) + T(Mark(1)))))))
  {
    hide EncDigest, N, L, T, Mark, EncU16, PublicationReceiptId, PC.ReceiptContext, PC.ReceiptTail;
    SmallNumber(1);
    ThreePrinted(PublicationReceiptId(rc), rc.request, rc.expected);
    PublishedContext(rc);
    PublishedTail(rc, resulting);
  }

  // ---- hash preimages -------------------------------------------------------------------------------

  /** A digest in a preimage: representation version, algorithm, length and bytes. */
  function H(d: Digest): Bytes { [0, 1, 0, 1] + N(32) + d }

  lemma Hashed(d: Digest)
    ensures EncDigest(Record, d) == H(d)
  {
    Short(d);
    SmallNumber(1);
  }

  lemma TargetText()
    ensures TargetBinding.Text() == [112, 107, 103, 115, 116, 97, 116, 101, 47, 116, 97, 114, 103, 101, 116, 45,
                                     98, 105, 110, 100, 105, 110, 103, 47, 49]
  {
  }

  /** Magic, record version and the domain with its length come before every body. */
  lemma PreimageLayout(body: Bytes)
    ensures Preimage(TargetBinding, body)
         == [112, 107, 103, 115, 116, 97, 116, 101, 0] + [0, 1] + (N(25) + TargetBinding.Text()) + body
    ensures TargetBinding.Text() == [112, 107, 103, 115, 116, 97, 116, 101, 47, 116, 97, 114, 103, 101, 116, 45,
                                     98, 105, 110, 100, 105, 110, 103, 47, 49]
  {
    TargetText();
    hide EncU16, EncBytes, Domain.Text;
    SmallNumber(1);
    Short(TargetBinding.Text());
  }

  lemma ControlBodyLayout(source: Source, build: seq<Digest>)
    ensures ControlBody(Control(source, SystemPolicy([97]), build))
         == H(SourceId(source)) + (([4] + [0] + [0] + ([1] + L([97]))) + EncList(DigestEnc(Record), build))
  {
    hide EncDigest, EncBytes, H, L, SourceId;
    Hashed(SourceId(source));
    Short([97]);
  }

  lemma ReceiptBodyLayout(r: Receipt, e: Entry)
    requires r.manifest == [e] && r.transaction.None?
    ensures ReceiptBody(r)
         == [0, 1] + H(ControlId(r.control)) + H(BindingId(r.binding))
            + (N(1) + EncEntry(Record, e) + H(r.plan) + H(r.evidence) + [0])
  {
    hide EncDigest, EncEntry, EncVector, EncU16, H, N, ControlId, BindingId;
    Hashed(ControlId(r.control));
    Hashed(BindingId(r.binding));
    Hashed(r.plan);
    Hashed(r.evidence);
    SmallNumber(1);
    One(EntryEnc(Record), e);
  }

  /** The snapshot's body names its packages by identity and ends with the ownership
      identity; the inventory names each path with the identities that own it. */
  lemma SnapshotBodyLayout(binding: Binding, p: Package, ownership: Digest)
    ensures SnapshotBody(binding, [p], ownership) == [0, 1] + H(BindingId(binding)) + (N(1) + H(PackageId(p))) + H(ownership)
    ensures EncVector(EncGroup, [Group([97], [Mark(1), Mark(2)])]) == N(1) + (L([97]) + (N(2) + H(Mark(1)) + H(Mark(2))))
  {
    hide EncDigest, EncBytes, EncVector, EncU16, H, N, L, Mark, BindingId, PackageId;
    Hashed(BindingId(binding));
    Hashed(PackageId(p));
    Hashed(ownership);
    Hashed(Mark(1));
    Hashed(Mark(2));
    SmallNumber(1);
    Short([97]);
    One(EncPackageId, p);
    One(EncGroup, Group([97], [Mark(1), Mark(2)]));
    Two(DigestEnc(Record), Mark(1), Mark(2));
  }

  /** In a request's body a proposed package is named by identity. */
  lemma RequestBodyLayout(r: Request, prior: Digest, p: Package)
    requires r.deltas == [Replace(prior, p, Mark(1), Mark(2))] && r.transaction.None? && |p.Name()| < 256
    ensures RequestBody(r)
         == [0, 1] + H(r.expected) + H(BindingId(r.binding))
            + (N(1) + ([2] + L(p.Name()) + H(Mark(1)) + H(Mark(2)) + ([1] + H(prior)) + ([1] + H(PackageId(p))))) + [0]
  {
    hide EncDigest, EncBytes, EncVector, EncU16, H, N, L, Mark, BindingId, PackageId;
    Hashed(r.expected);
    Hashed(BindingId(r.binding));
    Hashed(Mark(1));
    Hashed(Mark(2));
    Hashed(prior);
    Hashed(PackageId(p));
    SmallNumber(1);
    Short(p.Name());
    One(EncDeltaRecord, r.deltas[0]);
  }

  lemma ReceiptRecordLayout(rc: PublicationReceipt)
    requires rc.outcome.StaleExpectedState? && rc.durability.NotAttempted? && rc.atomicity.NoBoundary?
    requires rc.format == [97] && rc.resulting.None? && rc.evidence == [Mark(1)]
    ensures PublicationReceiptBody(rc)
         == [0, 1] + H(rc.request) + H(rc.expected) + H(rc.actual) + H(BindingId(rc.binding)) + L([97])
            + [2] + [1] + [1] + [0] + (N(1) + H(Mark(1)))
  {
    hide EncDigest, EncBytes, EncVector, EncU16, H, N, L, Mark, BindingId;
    Hashed(rc.request);
    Hashed(rc.expected);
    Hashed(rc.actual);
    Hashed(BindingId(rc.binding));
    Hashed(Mark(1));
    SmallNumber(1);
    Short([97]);
    One(DigestEnc(Record), Mark(1));
  }

  // ---- limits -----------------------------------------------------------------------------------------

  /** The edges of what an object's metadata may be. */
  lemma ObjectLimits()
    ensures var directory := ObjectMetadata(Directory, 0, 0, 0, 0, 0, None, None, None, None, None);
            && directory.(mode := 0xFFF, nanoseconds := 999_999_999).Valid()
            && !directory.(mode := 0x1000).Valid() && !directory.(nanoseconds := 1_000_000_000).Valid()
            && !directory.(size := Some(0)).Valid() && !directory.(content := Some(Mark(0))).Valid()
            && !directory.(symlink := Some([97])).Valid() && !directory.(device := Some(Device(0, 0))).Valid()
            && !directory.(anchor := Some([97])).Valid()
            && directory.(kind := Symlink, symlink := Some([97])).Valid()
            && !directory.(kind := Symlink, symlink := Some([])).Valid()
            && !directory.(kind := Symlink, symlink := Some([97, 10])).Valid()
            && directory.(kind := CharacterDevice, device := Some(Device(0, 0))).Valid()
            && directory.(kind := BlockDevice, device := Some(Device(0, 0))).Valid()
            && !directory.(kind := Regular, size := Some(0)).Valid()
            && directory.(kind := Regular, size := Some(0), content := Some(Mark(0))).Valid()
  {
    hide Mark;
    assert [97, 10][1] == 10;
  }

  /** Names: `libfoo+s_2.0` and `@toolchain` are canonical; `@wrong` as a package,
      `Upper`, `toolchain` and `@` as profiles, `x86 64` and the empty name are not. */
  lemma NameExamples()
    ensures IsAtom([108, 105, 98, 102, 111, 111, 43, 115, 95, 50, 46, 48], false)
    ensures IsAtom([64, 116, 111, 111, 108, 99, 104, 97, 105, 110], true)
    ensures !IsAtom([64, 119, 114, 111, 110, 103], false) && !IsAtom([85, 112, 112, 101, 114], false)
    ensures !IsAtom([116, 111, 111, 108, 99, 104, 97, 105, 110], true) && !IsAtom([64], true)
    ensures !IsAtom([120, 56, 54, 32, 54, 52], false) && !IsAtom([], false)
  {
    assert [120, 56, 54, 32, 54, 52][3] == 32;
  }

  /** Which single bytes a line, a text and the tail of a name may hold. */
  lemma ByteLimits(c: Byte)
    ensures LineSafe([c]) <==> 32 <= c < 127 || 127 < c
    ensures TextSafe([c]) <==> c == 9 || c == 10 || 32 <= c < 127 || 127 < c
    ensures IsAtom([97, c], false) <==> 97 <= c <= 122 || 48 <= c <= 57 || c == 43 || c == 46 || c == 95 || c == 45
    ensures IsAtom([c], false) <==> 97 <= c <= 122
    ensures !LineSafe([]) && !TextSafe([])
  {
    assert [c][0] == c && [97, c][1] == c;
  }

  /** Lines and columns start at one; document and path are lines of text. */
  lemma ProvenanceLimits()
    ensures Provenance([97], [97], 1, 1).Valid()
    ensures !Provenance([97], [97], 0, 1).Valid() && !Provenance([97], [97], 1, 0).Valid()
    ensures !Provenance([], [97], 1, 1).Valid() && !Provenance([97], [10], 1, 1).Valid()
  {
    assert [10][0] == 10;
  }

  /** Release numbers start at one, and a version has no slash. */
  lemma ReleaseLimits(d: Digest)
    ensures Release(d, [97], [98], 1).Valid() && !Release(d, [97], [98], 0).Valid()
    ensures !Release(d, [97], [98, 47, 99], 1).Valid()
  {
    assert [98, 47, 99][1] == 47;
  }
}
