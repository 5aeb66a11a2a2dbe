/** The wire forms of installed control, owned entries and installation
    receipts, with the identities that they embed. */
module ReceiptCodec {
  import opened Core
  import opened Wire
  import opened Model
  import opened SourceCodec
  import opened CanonicalRecord
  import PackagePath
  import Order

  /** Every schema and encoding version of the library is currently 1. */
  const SCHEMA: U16 := 1

  // ---- target bindings -----------------------------------------------------------

  function EncBinding(form: DigestForm, b: Binding): Bytes {
    EncDigest(form, b.target) + EncDigest(form, b.store) + EncDigest(form, b.root)
    + EncDigest(form, b.backend) + EncDigest(form, b.domain)
  }

  function ParseBinding(form: DigestForm, s: Bytes): Parsed<Binding> {
    var (target, s) :- ParseDigest(form, s);
    var (store, s) :- ParseDigest(form, s);
    var (root, s) :- ParseDigest(form, s);
    var (backend, s) :- ParseDigest(form, s);
    var (domain, s) :- ParseDigest(form, s);
    Parsed(Binding(target, store, root, backend, domain), s)
  }

  lemma BindingRoundTrip(form: DigestForm, b: Binding, rest: Bytes)
    ensures ParseBinding(form, EncBinding(form, b) + rest) == Parsed(b, rest)
  {
    hide EncDigest, ParseDigest;
    var afterBackend := EncDigest(form, b.domain) + rest;
    var afterRoot := EncDigest(form, b.backend) + afterBackend;
    var afterStore := EncDigest(form, b.root) + afterRoot;
    var afterTarget := EncDigest(form, b.store) + afterStore;
    assert EncBinding(form, b) + rest == EncDigest(form, b.target) + afterTarget;
    DigestRoundTrip(form, b.target, afterTarget);
    DigestRoundTrip(form, b.store, afterStore);
    DigestRoundTrip(form, b.root, afterRoot);
    DigestRoundTrip(form, b.backend, afterBackend);
    DigestRoundTrip(form, b.domain, rest);
  }

  function BindingId(b: Binding): Digest { Identify(TargetBinding, EncBinding(Record, b)) }

  function SourceId(x: Source): Digest { Identify(PackageSourceRecord, EncSource(Record, x)) }

  // ---- installation reasons ---------------------------------------------------------

  datatype Issuer = Issuer(profile: Bytes, identity: Digest)

  function ReasonPackage(r: Reason): Option<Bytes> { if r.RuntimeDependency? then Some(r.package) else None }
  function ReasonIssuer(r: Reason): Option<Issuer> {
    if r.ProfileMembership? then Some(Issuer(r.profile, r.identity)) else None
  }
  function ReasonPolicy(r: Reason): Option<Bytes> { if r.SystemPolicy? then Some(r.policy) else None }

  function EncIssuer(form: DigestForm, i: Issuer): Bytes { EncBytes(i.profile) + EncDigest(form, i.identity) }

  function IssuerEnc(form: DigestForm): Issuer -> Bytes { i => EncIssuer(form, i) }

  function ParseIssuer(form: DigestForm, s: Bytes): Parsed<Issuer> {
    var (profile, s) :- ParseProfileName(s);
    var (identity, s) :- ParseDigest(form, s);
    Parsed(Issuer(profile, identity), s)
  }

  function IssuerParse(form: DigestForm): Bytes -> Parsed<Issuer> { s => ParseIssuer(form, s) }

  function EncReason(form: DigestForm, r: Reason): Bytes {
    [r.Code()] + EncOption(EncBytes, ReasonPackage(r)) + EncOption(IssuerEnc(form), ReasonIssuer(r))
    + EncOption(EncBytes, ReasonPolicy(r))
  }

  /** The shape check of the decoder followed by the reason's factory. */
  function MakeReason(code: Byte, package: Option<Bytes>, issuer: Option<Issuer>, policy: Option<Bytes>): Option<Reason> {
    if code == 1 && package.None? && issuer.None? && policy.None? then Some(ExplicitRequest)
    else if code == 2 && package.Some? && issuer.None? && policy.None? then Some(RuntimeDependency(package.value))
    else if code == 3 && package.None? && issuer.Some? && policy.None? then
      Some(ProfileMembership(issuer.value.profile, issuer.value.identity))
    else if code == 4 && package.None? && issuer.None? && policy.Some? && LineSafe(policy.value) then
      Some(SystemPolicy(policy.value))
    else None
  }

  function ParseReason(form: DigestForm, s: Bytes): Parsed<Reason> {
    var (code, s) :- ParseU8(s);
    var (package, s) :- ParseOption(ParseName, s);
    var (issuer, s) :- ParseOption(IssuerParse(form), s);
    var (policy, s) :- ParseOption(ParseBytes, s);
    Built(MakeReason(code, package, issuer, policy), s)
  }

  lemma IssuerInverse(form: DigestForm, i: Issuer)
    requires Sized(i.profile) && IsAtom(i.profile, true)
    ensures Inverse(IssuerEnc(form), IssuerParse(form), i)
  {
    hide EncBytes, ParseBytes, EncDigest, ParseDigest;
    forall rest: Bytes ensures ParseIssuer(form, EncIssuer(form, i) + rest) == Parsed(i, rest) {
      assert EncIssuer(form, i) + rest == EncBytes(i.profile) + (EncDigest(form, i.identity) + rest);
      BytesRoundTrip(i.profile, EncDigest(form, i.identity) + rest);
      DigestRoundTrip(form, i.identity, rest);
    }
  }

  lemma ReasonRoundTrip(form: DigestForm, r: Reason, rest: Bytes)
    requires r.Valid()
    ensures ParseReason(form, EncReason(form, r) + rest) == Parsed(r, rest)
  {
    hide EncOption, ParseOption, EncBytes, ParseBytes, IssuerEnc, IssuerParse;
    if r.ProfileMembership? { IssuerInverse(form, ReasonIssuer(r).value); }
    if r.SystemPolicy? { BytesInverse(r.policy); }
    if r.RuntimeDependency? { NamesInverse([r.package]); assert r.package in [r.package]; }
    var afterIssuer := EncOption(EncBytes, ReasonPolicy(r)) + rest;
    var afterPackage := EncOption(IssuerEnc(form), ReasonIssuer(r)) + afterIssuer;
    var afterCode := EncOption(EncBytes, ReasonPackage(r)) + afterPackage;
    assert EncReason(form, r) + rest == [r.Code()] + afterCode;
    U8RoundTrip(r.Code(), afterCode);
    OptionRoundTrip(EncBytes, ParseName, ReasonPackage(r), afterPackage);
    OptionRoundTrip(IssuerEnc(form), IssuerParse(form), ReasonIssuer(r), afterIssuer);
    OptionRoundTrip(EncBytes, ParseBytes, ReasonPolicy(r), rest);
  }

  lemma ReasonParses(form: DigestForm, s: Bytes)
    ensures ParseReason(form, s).Parsed? ==> ParseReason(form, s).value.Valid()
  {
    hide ParseDigest, ParseBytes;
  }

  // ---- installed control -----------------------------------------------------------------

  ghost predicate ValidControl(c: Control) {
    && c.source.Valid() && c.reason.Valid()
    && |c.build| == BUILD_DIGESTS
    && c.build[0] == SourceId(c.source)
  }

  /** The build provenance must name the source record it was built from. */
  function MakeControl(source: Source, reason: Reason, build: seq<Digest>): Option<Control>
    requires |build| == BUILD_DIGESTS
  {
    if build[0] != SourceId(source) then None else Some(Control(source, reason, build))
  }

  /** The part that the codec and the identity preimage share. */
  function EncControlTail(form: DigestForm, c: Control): Bytes {
    EncReason(form, c.reason) + EncList(DigestEnc(form), c.build)
  }

  function EncControl(c: Control): Bytes { EncSource(Text, c.source) + EncControlTail(Text, c) }

  function ControlBody(c: Control): Bytes { EncDigest(Record, SourceId(c.source)) + EncControlTail(Record, c) }

  function ControlId(c: Control): Digest { Identify(InstalledControl, ControlBody(c)) }

  function ParseControlTail(form: DigestForm, s: Bytes): (r: Parsed<(Reason, seq<Digest>)>)
    ensures r.Parsed? ==> |r.value.1| == BUILD_DIGESTS
  {
    var (reason, s) :- ParseReason(form, s);
    var (build, s) :- ParseList(DigestParse(form), BUILD_DIGESTS, s);
    Parsed((reason, build), s)
  }

  function ParseControl(s: Bytes): Parsed<Control> {
    var (source, s) :- ParseSource(Text, s);
    var (tail, s) :- ParseControlTail(Text, s);
    Built(MakeControl(source, tail.0, tail.1), s)
  }

  lemma ControlTailRoundTrip(form: DigestForm, c: Control, rest: Bytes)
    requires c.reason.Valid() && |c.build| == BUILD_DIGESTS
    ensures ParseControlTail(form, EncControlTail(form, c) + rest) == Parsed((c.reason, c.build), rest)
  {
    hide EncReason, ParseReason, EncDigest, ParseDigest, EncList, ParseList;
    var tail := EncList(DigestEnc(form), c.build) + rest;
    assert EncControlTail(form, c) + rest == EncReason(form, c.reason) + tail;
    ReasonRoundTrip(form, c.reason, tail);
    forall d: Digest, more: Bytes ensures DigestParse(form)(DigestEnc(form)(d) + more) == Parsed(d, more) {
      DigestRoundTrip(form, d, more);
    }
    ListRoundTrip(DigestEnc(form), DigestParse(form), c.build, rest);
  }

  lemma ControlRoundTrip(c: Control, rest: Bytes)
    requires ValidControl(c)
    ensures ParseControl(EncControl(c) + rest) == Parsed(c, rest)
  {
    hide EncSource, ParseSource, EncControlTail, ParseControlTail, SourceId;
    assert EncControl(c) + rest == EncSource(Text, c.source) + (EncControlTail(Text, c) + rest);
    SourceRoundTrip(Text, c.source, EncControlTail(Text, c) + rest);
    ControlTailRoundTrip(Text, c, rest);
  }

  lemma ControlParses(s: Bytes)
    ensures ParseControl(s).Parsed? ==> ValidControl(ParseControl(s).value)
  {
    hide ParseSource, ParseReason, ParseList, SourceId;
    SourceParses(Text, s);
    if ParseSource(Text, s).Parsed? {
      ReasonParses(Text, ParseSource(Text, s).rest);
    }
  }

  // ---- owned entries ----------------------------------------------------------------------

  function ObjectKindOf(b: Byte): Option<ObjectKind> {
    if b == 1 then Some(Regular) else if b == 2 then Some(Directory)
    else if b == 3 then Some(Symlink) else if b == 4 then Some(Fifo)
    else if b == 5 then Some(CharacterDevice) else if b == 6 then Some(BlockDevice)
    else if b == 7 then Some(Socket) else if b == 8 then Some(Other) else None
  }

  function ActiveOriginOf(b: Byte): Option<ActiveOrigin> {
    if b == 1 then Some(IncomingPayload) else if b == 2 then Some(RetainedExisting) else None
  }

  function RejectedSideOf(b: Byte): Option<RejectedSide> {
    if b == 1 then Some(Incoming) else if b == 2 then Some(PriorInstalled) else None
  }

  /** Reads a path text; the value is its normal form. */
  function ParsePath(s: Bytes): Parsed<Bytes> {
    var (text, s) :- ParseBytes(s);
    Built(PackagePath.Parse(text), s)
  }

  predicate ValidPath(p: Bytes) { Sized(p) && PackagePath.IsPath(p) }

  lemma PathInverse(p: Bytes)
    requires ValidPath(p)
    ensures Inverse(EncBytes, ParsePath, p)
  {
    hide EncBytes, ParseBytes, PackagePath.Parse;
    forall rest: Bytes ensures ParsePath(EncBytes(p) + rest) == Parsed(p, rest) {
      BytesRoundTrip(p, rest);
      PackagePath.IsPathIsFixed(p);
    }
  }

  lemma PathParses(s: Bytes)
    ensures ParsePath(s).Parsed? ==> ValidPath(ParsePath(s).value)
  {
    var text := ParseBytes(s);
    if text.Parsed? && PackagePath.Parse(text.value).Some? {
      PackagePath.ParseNormalizes(text.value);
      PackagePath.ParseShortens(text.value);
    }
  }

  function EncDevice(d: Device): Bytes { EncU64(d.major) + EncU64(d.minor) }

  function ParseDevice(s: Bytes): Parsed<Device> {
    var (major, s) :- ParseU64(s);
    var (minor, s) :- ParseU64(s);
    Parsed(Device(major, minor), s)
  }

  lemma DeviceInverse(d: Device)
    ensures Inverse(EncDevice, ParseDevice, d)
  {
    hide EncU64, ParseU64;
    forall rest: Bytes ensures ParseDevice(EncDevice(d) + rest) == Parsed(d, rest) {
      assert EncDevice(d) + rest == EncU64(d.major) + (EncU64(d.minor) + rest);
      U64RoundTrip(d.major, EncU64(d.minor) + rest);
      U64RoundTrip(d.minor, rest);
    }
  }

  /** Kind, mode, ownership and time. */
  function EncObjectHead(o: ObjectMetadata): Bytes {
    [o.kind.Code()] + EncU32(o.mode) + EncU64(o.uid) + EncU64(o.gid) + EncI64(o.seconds) + EncU32(o.nanoseconds)
  }

  function ParseObjectHead(s: Bytes): Parsed<(Byte, U32, U64, U64, I64, U32)> {
    var (kind, s) :- ParseU8(s);
    var (mode, s) :- ParseU32(s);
    var (uid, s) :- ParseU64(s);
    var (gid, s) :- ParseU64(s);
    var (seconds, s) :- ParseI64(s);
    var (nanoseconds, s) :- ParseU32(s);
    Parsed((kind, mode, uid, gid, seconds, nanoseconds), s)
  }

  lemma ObjectHeadRoundTrip(o: ObjectMetadata, rest: Bytes)
    ensures ParseObjectHead(EncObjectHead(o) + rest)
         == Parsed((o.kind.Code(), o.mode, o.uid, o.gid, o.seconds, o.nanoseconds), rest)
  {
    hide EncU32, EncU64, EncI64, ParseU32, ParseU64, ParseI64;
    var afterSeconds := EncU32(o.nanoseconds) + rest;
    var afterGid := EncI64(o.seconds) + afterSeconds;
    var afterUid := EncU64(o.gid) + afterGid;
    var afterMode := EncU64(o.uid) + afterUid;
    var afterKind := EncU32(o.mode) + afterMode;
    assert EncObjectHead(o) + rest == [o.kind.Code()] + afterKind;
    U8RoundTrip(o.kind.Code(), afterKind);
    U32RoundTrip(o.mode, afterMode);
    U64RoundTrip(o.uid, afterUid);
    U64RoundTrip(o.gid, afterGid);
    I64RoundTrip(o.seconds, afterSeconds);
    U32RoundTrip(o.nanoseconds, rest);
  }

  /** The facts that only some kinds of object have. */
  function EncObjectTail(form: DigestForm, o: ObjectMetadata): Bytes {
    EncOption(EncSize, o.size) + EncOption(DigestEnc(form), o.content) + EncOption(EncBytes, o.symlink)
    + EncOption(EncDevice, o.device) + EncOption(EncBytes, o.anchor)
  }

  function ParseObjectTail(form: DigestForm, s: Bytes)
    : Parsed<(Option<U64>, Option<Digest>, Option<Bytes>, Option<Device>, Option<Bytes>)>
  {
    var (size, s) :- ParseOption(ParseU64, s);
    var (content, s) :- ParseOption(DigestParse(form), s);
    var (symlink, s) :- ParseOption(ParseBytes, s);
    var (device, s) :- ParseOption(ParseDevice, s);
    var (anchor, s) :- ParseOption(ParsePath, s);
    Parsed((size, content, symlink, device, anchor), s)
  }

  function EncSize(n: U64): Bytes { EncU64(n) }

  lemma SizeInverse(n: U64)
    ensures Inverse(EncSize, ParseU64, n)
  {
    hide EncU64, ParseU64;
    forall rest { U64RoundTrip(n, rest); }
  }

  lemma ObjectTailRoundTrip(form: DigestForm, o: ObjectMetadata, rest: Bytes)
    requires o.Valid()
    ensures ParseObjectTail(form, EncObjectTail(form, o) + rest)
         == Parsed((o.size, o.content, o.symlink, o.device, o.anchor), rest)
  {
    hide EncOption, ParseOption, EncSize, ParseU64, EncBytes, ParseBytes, EncDigest, ParseDigest, EncDevice, ParseDevice, ParsePath;
    var afterDevice := EncOption(EncBytes, o.anchor) + rest;
    var afterSymlink := EncOption(EncDevice, o.device) + afterDevice;
    var afterContent := EncOption(EncBytes, o.symlink) + afterSymlink;
    var afterSize := EncOption(DigestEnc(form), o.content) + afterContent;
    assert EncObjectTail(form, o) + rest == EncOption(EncSize, o.size) + afterSize;
    if o.size.Some? { SizeInverse(o.size.value); }
    if o.content.Some? { DigestInverse(form, o.content.value); }
    if o.symlink.Some? { BytesInverse(o.symlink.value); }
    if o.device.Some? { DeviceInverse(o.device.value); }
    if o.anchor.Some? { PathInverse(o.anchor.value); }
    OptionRoundTrip(EncSize, ParseU64, o.size, afterSize);
    OptionRoundTrip(DigestEnc(form), DigestParse(form), o.content, afterContent);
    OptionRoundTrip(EncBytes, ParseBytes, o.symlink, afterSymlink);
    OptionRoundTrip(EncDevice, ParseDevice, o.device, afterDevice);
    OptionRoundTrip(EncBytes, ParsePath, o.anchor, rest);
  }

  function EncRejection(form: DigestForm, r: Rejection): Bytes { [r.side.Code()] + EncDigest(form, r.identity) }

  function RejectionEnc(form: DigestForm): Rejection -> Bytes { r => EncRejection(form, r) }

  function ParseRejection(form: DigestForm, s: Bytes): Parsed<Rejection> {
    var (side, s) :- ParseU8(s);
    var (identity, s) :- ParseDigest(form, s);
    var (side, s) :- Built(RejectedSideOf(side), s);
    Parsed(Rejection(side, identity), s)
  }

  function RejectionParse(form: DigestForm): Bytes -> Parsed<Rejection> { s => ParseRejection(form, s) }

  lemma RejectionInverse(form: DigestForm, r: Rejection)
    ensures Inverse(RejectionEnc(form), RejectionParse(form), r)
  {
    hide EncDigest, ParseDigest;
    forall rest: Bytes ensures ParseRejection(form, EncRejection(form, r) + rest) == Parsed(r, rest) {
      assert EncRejection(form, r) + rest == [r.side.Code()] + (EncDigest(form, r.identity) + rest);
      U8RoundTrip(r.side.Code(), EncDigest(form, r.identity) + rest);
      DigestRoundTrip(form, r.identity, rest);
    }
  }

  function EncEntry(form: DigestForm, e: Entry): Bytes {
    EncBytes(e.path) + EncObjectHead(e.metadata) + EncObjectTail(form, e.metadata)
    + [e.origin.Code()] + EncOption(RejectionEnc(form), e.rejected)
  }

  function EntryEnc(form: DigestForm): Entry -> Bytes { e => EncEntry(form, e) }

  function MakeEntry(path: Bytes, head: (Byte, U32, U64, U64, I64, U32),
                     tail: (Option<U64>, Option<Digest>, Option<Bytes>, Option<Device>, Option<Bytes>),
                     origin: Byte, rejected: Option<Rejection>): Option<Entry>
  {
    var kind :- ObjectKindOf(head.0);
    var o := ObjectMetadata(kind, head.1, head.2, head.3, head.4, head.5, tail.0, tail.1, tail.2, tail.3, tail.4);
    if !o.Valid() then None
    else
      var origin :- ActiveOriginOf(origin);
      Some(Entry(path, o, origin, rejected))
  }

  function ParseEntry(form: DigestForm, s: Bytes): Parsed<Entry> {
    var (path, s) :- ParsePath(s);
    var (head, s) :- ParseObjectHead(s);
    var (tail, s) :- ParseObjectTail(form, s);
    var (origin, s) :- ParseU8(s);
    var (rejected, s) :- ParseOption(RejectionParse(form), s);
    Built(MakeEntry(path, head, tail, origin, rejected), s)
  }

  function EntryParse(form: DigestForm): Bytes -> Parsed<Entry> { s => ParseEntry(form, s) }

  lemma EntryInverse(form: DigestForm, e: Entry)
    requires e.Valid()
    ensures Inverse(EntryEnc(form), EntryParse(form), e) && |EncEntry(form, e)| >= 1
  {
    hide EncBytes, ParsePath, EncObjectHead, ParseObjectHead, EncObjectTail, ParseObjectTail, EncOption, ParseOption;
    forall rest: Bytes ensures ParseEntry(form, EncEntry(form, e) + rest) == Parsed(e, rest) {
      var afterOrigin := EncOption(RejectionEnc(form), e.rejected) + rest;
      var afterTail := [e.origin.Code()] + afterOrigin;
      var afterHead := EncObjectTail(form, e.metadata) + afterTail;
      var afterPath := EncObjectHead(e.metadata) + afterHead;
      assert EncEntry(form, e) + rest == EncBytes(e.path) + afterPath;
      PathInverse(e.path);
      ObjectHeadRoundTrip(e.metadata, afterHead);
      ObjectTailRoundTrip(form, e.metadata, afterTail);
      U8RoundTrip(e.origin.Code(), afterOrigin);
      if e.rejected.Some? { RejectionInverse(form, e.rejected.value); }
      OptionRoundTrip(RejectionEnc(form), RejectionParse(form), e.rejected, rest);
      EntryRebuilt(e);
    }
  }

  lemma EntryRebuilt(e: Entry)
    requires e.Valid()
    ensures var o := e.metadata;
            MakeEntry(e.path, (o.kind.Code(), o.mode, o.uid, o.gid, o.seconds, o.nanoseconds),
                      (o.size, o.content, o.symlink, o.device, o.anchor), e.origin.Code(), e.rejected) == Some(e)
  {
  }

  lemma EntryParses(form: DigestForm, s: Bytes)
    ensures ParseEntry(form, s).Parsed? ==> ParseEntry(form, s).value.Valid()
  {
    hide ParsePath, ParseObjectHead, ParseObjectTail, ParseOption;
    PathParses(s);
  }

  // ---- installation receipts -----------------------------------------------------------------

  ghost predicate ValidReceipt(r: Receipt) {
    && ValidControl(r.control)
    && Sized(r.manifest) && (forall e :: e in r.manifest ==> e.Valid())
    && Order.Strict(PathKey, r.manifest)
  }

  /** The part that the codec and the identity preimage share. */
  function EncReceiptTail(form: DigestForm, r: Receipt): Bytes {
    EncVector(EntryEnc(form), r.manifest) + EncDigest(form, r.plan) + EncDigest(form, r.evidence)
    + EncOption(DigestEnc(form), r.transaction)
  }

  function EncReceipt(r: Receipt): Bytes {
    EncU16(SCHEMA) + EncControl(r.control) + EncReceiptTail(Text, r)
  }

  function ReceiptBody(r: Receipt): Bytes {
    EncU16(SCHEMA) + EncDigest(Record, ControlId(r.control)) + EncDigest(Record, BindingId(r.binding))
    + EncReceiptTail(Record, r)
  }

  function ReceiptId(r: Receipt): Digest { Identify(InstallationReceipt, ReceiptBody(r)) }

  function PackageId(p: Package): Digest { Identify(InstalledPackage, EncDigest(Record, ReceiptId(p.receipt))) }

  ghost predicate ValidPackage(p: Package) { ValidReceipt(p.receipt) }

  function ParseReceiptTail(form: DigestForm, s: Bytes): (r: Parsed<(seq<Entry>, Digest, Digest, Option<Digest>)>)
    ensures r.Parsed? ==> Sized(r.value.0)
  {
    var (manifest, s) :- ParseVector(EntryParse(form), NO_LIMIT, s);
    var (plan, s) :- ParseDigest(form, s);
    var (evidence, s) :- ParseDigest(form, s);
    var (transaction, s) :- ParseOption(DigestParse(form), s);
    Parsed((manifest, plan, evidence, transaction), s)
  }

  function ParseReceipt(binding: Binding, s: Bytes): Parsed<Receipt> {
    var (schema, s) :- ParseU16(s);
    if schema != SCHEMA then Rejected(UnsupportedVersion)
    else
      var (control, s) :- ParseControl(s);
      var (tail, s) :- ParseReceiptTail(Text, s);
      Built(MakeReceipt(control, binding, tail.0, tail.1, tail.2, tail.3), s)
  }

  lemma DigestInverse(form: DigestForm, d: Digest)
    ensures Inverse(DigestEnc(form), DigestParse(form), d) && |DigestEnc(form)(d)| >= 1
  {
    hide EncDigest, ParseDigest;
    forall rest { DigestRoundTrip(form, d, rest); }
    DigestSize(form, d);
  }

  lemma ReceiptTailRoundTrip(form: DigestForm, r: Receipt, rest: Bytes)
    requires Sized(r.manifest) && forall e :: e in r.manifest ==> e.Valid()
    ensures ParseReceiptTail(form, EncReceiptTail(form, r) + rest)
         == Parsed((r.manifest, r.plan, r.evidence, r.transaction), rest)
  {
    hide EncVector, ParseVector, EncDigest, ParseDigest, EncOption, ParseOption, EncEntry, ParseEntry;
    var afterEvidence := EncOption(DigestEnc(form), r.transaction) + rest;
    var afterPlan := EncDigest(form, r.evidence) + afterEvidence;
    var afterManifest := EncDigest(form, r.plan) + afterPlan;
    assert EncReceiptTail(form, r) + rest == EncVector(EntryEnc(form), r.manifest) + afterManifest;
    forall e | e in r.manifest ensures Inverse(EntryEnc(form), EntryParse(form), e) && |EntryEnc(form)(e)| >= 1 {
      EntryInverse(form, e);
    }
    VectorRoundTrip(EntryEnc(form), EntryParse(form), NO_LIMIT, r.manifest, afterManifest);
    DigestRoundTrip(form, r.plan, afterPlan);
    DigestRoundTrip(form, r.evidence, afterEvidence);
    if r.transaction.Some? { DigestInverse(form, r.transaction.value); }
    OptionRoundTrip(DigestEnc(form), DigestParse(form), r.transaction, rest);
  }

  lemma ReceiptRoundTrip(r: Receipt, rest: Bytes)
    requires ValidReceipt(r)
    ensures ParseReceipt(r.binding, EncReceipt(r) + rest) == Parsed(r, rest)
  {
    hide EncU16, ParseU16, EncControl, ParseControl, EncReceiptTail, ParseReceiptTail, Order.Normalize, ValidControl;
    var afterControl := EncReceiptTail(Text, r) + rest;
    assert EncReceipt(r) + rest == EncU16(SCHEMA) + (EncControl(r.control) + afterControl);
    U16RoundTrip(SCHEMA, EncControl(r.control) + afterControl);
    ControlRoundTrip(r.control, afterControl);
    ReceiptTailRoundTrip(Text, r, rest);
    Order.NormalizeFixes(PathKey, r.manifest);
  }

  lemma ReceiptTailParses(form: DigestForm, s: Bytes)
    ensures var r := ParseReceiptTail(form, s); r.Parsed? ==> forall e :: e in r.value.0 ==> e.Valid()
  {
    hide ParseVector, ParseEntry, ParseDigest, ParseOption;
    forall t ensures EntryParse(form)(t).Parsed? ==> EntryParse(form)(t).value.Valid() { EntryParses(form, t); }
    VectorAll(EntryParse(form), (e: Entry) => e.Valid(), NO_LIMIT, s);
  }

  lemma ReceiptParses(binding: Binding, s: Bytes)
    ensures var r := ParseReceipt(binding, s);
            r.Parsed? ==> ValidReceipt(r.value) && r.value.binding == binding
  {
    hide ParseU16, ParseControl, ParseReceiptTail;
    if ParseReceipt(binding, s).Parsed? {
      var schema := ParseU16(s);
      var control := ParseControl(schema.rest);
      var tail := ParseReceiptTail(Text, control.rest);
      ControlParses(schema.rest);
      ReceiptTailParses(Text, control.rest);
      Order.NormalizeMeans(PathKey, tail.value.0);
      NormalizeMembers(PathKey, tail.value.0);
    }
  }
}
