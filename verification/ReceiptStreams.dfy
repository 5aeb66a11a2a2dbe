/** The imperative writers, readers and identity computations of target
    bindings, installed control, owned entries and installation receipts. */
module ReceiptStreams {
  import opened Core
  import opened Wire
  import opened Model
  import opened SourceCodec
  import opened ReceiptCodec
  import opened CanonicalRecord
  import opened Streams
  import opened SourceStreams
  import PackagePath

  // ---- writers ------------------------------------------------------------

  method EncodeBinding(w: ByteSink, b: Binding)
    modifies w
    ensures w.bytes == old(w.bytes) + EncBinding(w.form, b)
  {
    hide EncDigest;
    w.Digest(b.target);
    w.Digest(b.store);
    w.Digest(b.root);
    w.Digest(b.backend);
    w.Digest(b.domain);
  }

  method EncodeReason(w: ByteSink, r: Reason)
    modifies w
    ensures w.bytes == old(w.bytes) + EncReason(w.form, r)
  {
    hide EncBytes, EncDigest;
    w.U8(r.Code());
    w.OptionalBytes(ReasonPackage(r));
    ghost var before := w.bytes;
    w.Boolean(r.ProfileMembership?);
    if r.ProfileMembership? {
      w.Bytes(r.profile);
      w.Digest(r.identity);
    }
    assert w.bytes == before + EncOption(IssuerEnc(w.form), ReasonIssuer(r));
    w.OptionalBytes(ReasonPolicy(r));
  }

  /** The installation reason and the fourteen build identities. */
  method EncodeControlTail(w: ByteSink, c: Control)
    modifies w
    ensures w.bytes == old(w.bytes) + EncControlTail(w.form, c)
  {
    hide EncReason, EncDigest;
    EncodeReason(w, c.reason);
    ghost var start := w.bytes;
    for i := 0 to |c.build|
      invariant w.bytes == start + EncList(DigestEnc(w.form), c.build[..i])
    {
      EncListStep(DigestEnc(w.form), c.build, i);
      w.Digest(c.build[i]);
    }
    assert c.build[..|c.build|] == c.build;
  }

  method EncodeControl(w: ByteSink, c: Control)
    requires w.form == Text
    modifies w
    ensures w.bytes == old(w.bytes) + EncControl(c)
  {
    hide EncSource, EncControlTail;
    EncodeSource(w, c.source);
    EncodeControlTail(w, c);
  }

  method EncodeObjectHead(w: ByteSink, o: ObjectMetadata)
    modifies w
    ensures w.bytes == old(w.bytes) + EncObjectHead(o)
  {
    hide EncU32, EncU64, EncI64;
    w.U8(o.kind.Code());
    w.U32(o.mode);
    w.U64(o.uid);
    w.U64(o.gid);
    w.Signed(o.seconds);
    w.U32(o.nanoseconds);
  }

  method EncodeOptionalSize(w: ByteSink, size: Option<U64>)
    modifies w
    ensures w.bytes == old(w.bytes) + EncOption(EncSize, size)
  {
    hide EncU64;
    w.Boolean(size.Some?);
    if size.Some? {
      w.U64(size.value);
    }
  }

  method EncodeOptionalDevice(w: ByteSink, device: Option<Device>)
    modifies w
    ensures w.bytes == old(w.bytes) + EncOption(EncDevice, device)
  {
    hide EncU64;
    w.Boolean(device.Some?);
    if device.Some? {
      w.U64(device.value.major);
      w.U64(device.value.minor);
    }
  }

  method EncodeRejection(w: ByteSink, rejected: Option<Rejection>)
    modifies w
    ensures w.bytes == old(w.bytes) + EncOption(RejectionEnc(w.form), rejected)
  {
    hide EncDigest;
    w.Boolean(rejected.Some?);
    if rejected.Some? {
      w.U8(rejected.value.side.Code());
      w.Digest(rejected.value.identity);
    }
  }

  method EncodeObjectTail(w: ByteSink, o: ObjectMetadata)
    modifies w
    ensures w.bytes == old(w.bytes) + EncObjectTail(w.form, o)
  {
    hide EncOption;
    EncodeOptionalSize(w, o.size);
    w.OptionalDigest(o.content);
    w.OptionalBytes(o.symlink);
    EncodeOptionalDevice(w, o.device);
    w.OptionalBytes(o.anchor);
  }

  method EncodeEntry(w: ByteSink, e: Entry)
    modifies w
    ensures w.bytes == old(w.bytes) + EncEntry(w.form, e)
  {
    hide EncBytes, EncObjectHead, EncObjectTail, EncOption;
    w.Bytes(e.path);
    EncodeObjectHead(w, e.metadata);
    EncodeObjectTail(w, e.metadata);
    w.U8(e.origin.Code());
    EncodeRejection(w, e.rejected);
  }

  /** The manifest and the evidence identities, as the codec writes them and as
      the receipt's identity hashes them. */
  method EncodeReceiptTail(w: ByteSink, r: Receipt)
    modifies w
    ensures w.bytes == old(w.bytes) + EncReceiptTail(w.form, r)
  {
    hide EncVector, EncDigest, EncOption;
    EncodeManifest(w, r.manifest);
    EncodeEvidence(w, r);
  }

  method EncodeManifest(w: ByteSink, xs: seq<Entry>)
    modifies w
    ensures w.bytes == old(w.bytes) + EncVector(EntryEnc(w.form), xs)
  {
    hide EncEntry, EncU64;
    w.U64(|xs|);
    ghost var start := w.bytes;
    for i := 0 to |xs|
      invariant w.bytes == start + EncList(EntryEnc(w.form), xs[..i])
    {
      EncListStep(EntryEnc(w.form), xs, i);
      EncodeEntry(w, xs[i]);
    }
    assert xs[..|xs|] == xs;
  }

  method EncodeEvidence(w: ByteSink, r: Receipt)
    modifies w
    ensures w.bytes == old(w.bytes) + EncDigest(w.form, r.plan) + EncDigest(w.form, r.evidence)
                       + EncOption(DigestEnc(w.form), r.transaction)
  {
    hide EncDigest;
    w.Digest(r.plan);
    w.Digest(r.evidence);
    w.OptionalDigest(r.transaction);
  }

  method EncodeReceipt(w: ByteSink, r: Receipt)
    requires w.form == Text
    modifies w
    ensures w.bytes == old(w.bytes) + EncReceipt(r)
  {
    hide EncU16, EncControl, EncReceiptTail;
    w.U16(SCHEMA);
    EncodeControl(w, r.control);
    EncodeReceiptTail(w, r);
  }

  // ---- identities -----------------------------------------------------------

  method IdentifyBinding(b: Binding) returns (id: Digest)
    ensures id == BindingId(b)
  {
    hide EncBinding, Header;
    var record := new ByteSink.CanonicalRecord(TargetBinding);
    EncodeBinding(record, b);
    id := SHA256(record.bytes);
  }

  method IdentifySource(x: Source) returns (id: Digest)
    ensures id == SourceId(x)
  {
    hide EncSource, Header;
    var record := new ByteSink.CanonicalRecord(PackageSourceRecord);
    EncodeSource(record, x);
    id := SHA256(record.bytes);
  }

  method IdentifyControl(c: Control) returns (id: Digest)
    ensures id == ControlId(c)
  {
    hide EncDigest, EncControlTail, Header, SourceId;
    var source := IdentifySource(c.source);
    var record := new ByteSink.CanonicalRecord(InstalledControl);
    record.Digest(source);
    EncodeControlTail(record, c);
    assert record.bytes == Header(InstalledControl) + ControlBody(c);
    id := SHA256(record.bytes);
  }

  method IdentifyReceipt(r: Receipt) returns (id: Digest)
    ensures id == ReceiptId(r)
  {
    hide EncU16, EncDigest, EncReceiptTail, Header, ControlId, BindingId;
    var control := IdentifyControl(r.control);
    var binding := IdentifyBinding(r.binding);
    var record := new ByteSink.CanonicalRecord(InstallationReceipt);
    record.U16(SCHEMA);
    record.Digest(control);
    record.Digest(binding);
    EncodeReceiptTail(record, r);
    assert record.bytes == Header(InstallationReceipt) + ReceiptBody(r);
    id := SHA256(record.bytes);
  }

  method IdentifyPackage(p: Package) returns (id: Digest)
    ensures id == PackageId(p)
  {
    hide EncDigest, Header, ReceiptId;
    var receipt := IdentifyReceipt(p.receipt);
    var record := new ByteSink.CanonicalRecord(InstalledPackage);
    record.Digest(receipt);
    id := SHA256(record.bytes);
  }

  // ---- readers ----------------------------------------------------------------

  method DecodeBinding(r: Reader) returns (answer: Result<Binding>)
    requires r.Valid()
    modifies r
    ensures r.Agrees(ParseBinding(Text, old(r.Rest())), answer)
  {
    hide ParseDigest;
    var target :- r.Digest();
    var store :- r.Digest();
    var root :- r.Digest();
    var backend :- r.Digest();
    var domain :- r.Digest();
    return Success(Binding(target, store, root, backend, domain));
  }

  method DecodeOptionalName(r: Reader) returns (answer: Result<Option<Bytes>>)
    requires r.Valid()
    modifies r
    ensures r.Agrees(ParseOption(ParseName, old(r.Rest())), answer)
  {
    hide ParseName, ParseBool;
    var present :- r.Boolean();
    if !present {
      return Success(None);
    }
    var name :- DecodeName(r);
    return Success(Some(name));
  }

  method DecodeOptionalIssuer(r: Reader) returns (answer: Result<Option<Issuer>>)
    requires r.Valid()
    modifies r
    ensures r.Agrees(ParseOption(IssuerParse(Text), old(r.Rest())), answer)
  {
    hide ParseProfileName, ParseDigest, ParseBool;
    var present :- r.Boolean();
    if !present {
      return Success(None);
    }
    var profile :- DecodeProfileName(r);
    var identity :- r.Digest();
    return Success(Some(Issuer(profile, identity)));
  }

  method DecodeReason(r: Reader) returns (answer: Result<Reason>)
    requires r.Valid()
    modifies r
    ensures r.Agrees(ParseReason(Text, old(r.Rest())), answer)
  {
    hide ParseOption, MakeReason;
    var code :- r.U8();
    var package :- DecodeOptionalName(r);
    var issuer :- DecodeOptionalIssuer(r);
    var policy :- r.OptionalBytes();
    answer := Constructed(MakeReason(code, package, issuer, policy));
  }

  method DecodeBuild(r: Reader) returns (answer: Result<seq<Digest>>)
    requires r.Valid()
    modifies r
    ensures r.Agrees(ParseList(DigestParse(Text), BUILD_DIGESTS, old(r.Rest())), answer)
  {
    hide ParseDigest;
    var xs: seq<Digest> := [];
    ghost var whole := ParseList(DigestParse(Text), BUILD_DIGESTS, r.Rest());
    PrependNothing(whole);
    for i := 0 to BUILD_DIGESTS
      invariant r.Valid()
      invariant whole == Prepend(xs, ParseList(DigestParse(Text), BUILD_DIGESTS - i, r.Rest()))
    {
      ParseListStep(DigestParse(Text), BUILD_DIGESTS - i, xs, r.Rest());
      var x :- r.Digest();
      xs := xs + [x];
    }
    ParseListEnd(DigestParse(Text), xs, r.Rest());
    return Success(xs);
  }

  method MakeControlRecord(source: Source, reason: Reason, build: seq<Digest>) returns (made: Option<Control>)
    requires |build| == BUILD_DIGESTS
    ensures made == MakeControl(source, reason, build)
  {
    var identity := IdentifySource(source);
    if build[0] != identity {
      return None;
    }
    return Some(Control(source, reason, build));
  }

  method DecodeControl(r: Reader) returns (answer: Result<Control>)
    requires r.Valid() && r.maximumCount == NO_LIMIT
    modifies r
    ensures r.Agrees(ParseControl(old(r.Rest())), answer)
  {
    hide ParseSource, ParseReason, ParseList, MakeControl;
    var source :- DecodeSource(r);
    var reason :- DecodeReason(r);
    var build :- DecodeBuild(r);
    assert |build| == BUILD_DIGESTS;
    var made := MakeControlRecord(source, reason, build);
    answer := Constructed(made);
  }

  method DecodePath(r: Reader) returns (answer: Result<Bytes>)
    requires r.Valid()
    modifies r
    ensures r.Agrees(ParsePath(old(r.Rest())), answer)
  {
    hide ParseBytes, PackagePath.Parse;
    var text :- r.Bytes();
    var path := PackagePath.ParsePath(text);
    answer := Constructed(path);
  }

  method DecodeObjectHead(r: Reader) returns (answer: Result<(Byte, U32, U64, U64, I64, U32)>)
    requires r.Valid()
    modifies r
    ensures r.Agrees(ParseObjectHead(old(r.Rest())), answer)
  {
    hide ParseU32, ParseU64, ParseI64;
    var kind :- r.U8();
    var mode :- r.U32();
    var uid :- r.U64();
    var gid :- r.U64();
    var seconds :- r.Signed();
    var nanoseconds :- r.U32();
    return Success((kind, mode, uid, gid, seconds, nanoseconds));
  }

  method DecodeOptionalSize(r: Reader) returns (answer: Result<Option<U64>>)
    requires r.Valid()
    modifies r
    ensures r.Agrees(ParseOption(ParseU64, old(r.Rest())), answer)
  {
    hide ParseU64, ParseBool;
    var present :- r.Boolean();
    if !present {
      return Success(None);
    }
    var size :- r.U64();
    return Success(Some(size));
  }

  method DecodeOptionalDevice(r: Reader) returns (answer: Result<Option<Device>>)
    requires r.Valid()
    modifies r
    ensures r.Agrees(ParseOption(ParseDevice, old(r.Rest())), answer)
  {
    hide ParseU64, ParseBool;
    var present :- r.Boolean();
    if !present {
      return Success(None);
    }
    var major :- r.U64();
    var minor :- r.U64();
    return Success(Some(Device(major, minor)));
  }

  method DecodeOptionalPath(r: Reader) returns (answer: Result<Option<Bytes>>)
    requires r.Valid()
    modifies r
    ensures r.Agrees(ParseOption(ParsePath, old(r.Rest())), answer)
  {
    hide ParsePath, ParseBool;
    var present :- r.Boolean();
    if !present {
      return Success(None);
    }
    var path :- DecodePath(r);
    return Success(Some(path));
  }

  method DecodeObjectTail(r: Reader)
    returns (answer: Result<(Option<U64>, Option<Digest>, Option<Bytes>, Option<Device>, Option<Bytes>)>)
    requires r.Valid()
    modifies r
    ensures r.Agrees(ParseObjectTail(Text, old(r.Rest())), answer)
  {
    hide ParseOption;
    var size :- DecodeOptionalSize(r);
    var content :- r.OptionalDigest();
    var symlink :- r.OptionalBytes();
    var device :- DecodeOptionalDevice(r);
    var anchor :- DecodeOptionalPath(r);
    return Success((size, content, symlink, device, anchor));
  }

  method DecodeRejection(r: Reader) returns (answer: Result<Option<Rejection>>)
    requires r.Valid()
    modifies r
    ensures r.Agrees(ParseOption(RejectionParse(Text), old(r.Rest())), answer)
  {
    hide ParseDigest, ParseBool;
    var present :- r.Boolean();
    if !present {
      return Success(None);
    }
    var code :- r.U8();
    var identity :- r.Digest();
    var side :- Constructed(RejectedSideOf(code));
    return Success(Some(Rejection(side, identity)));
  }

  method DecodeEntry(r: Reader) returns (answer: Result<Entry>)
    requires r.Valid()
    modifies r
    ensures r.Agrees(EntryParse(Text)(old(r.Rest())), answer)
  {
    hide ParsePath, ParseObjectHead, ParseObjectTail, ParseOption, MakeEntry;
    var path :- DecodePath(r);
    var head :- DecodeObjectHead(r);
    var tail :- DecodeObjectTail(r);
    var origin :- r.U8();
    var rejected :- DecodeRejection(r);
    answer := Constructed(MakeEntry(path, head, tail, origin, rejected));
  }

  method DecodeManifest(r: Reader) returns (answer: Result<seq<Entry>>)
    requires r.Valid()
    modifies r
    ensures r.Agrees(ParseVector(EntryParse(Text), r.maximumCount, old(r.Rest())), answer)
  {
    hide ParseEntry, ParseCount;
    var count :- r.Count();
    var xs: seq<Entry> := [];
    ghost var whole := ParseList(EntryParse(Text), count, r.Rest());
    PrependNothing(whole);
    for i := 0 to count
      invariant r.Valid()
      invariant whole == Prepend(xs, ParseList(EntryParse(Text), count - i, r.Rest()))
    {
      ParseListStep(EntryParse(Text), count - i, xs, r.Rest());
      var x :- DecodeEntry(r);
      xs := xs + [x];
    }
    ParseListEnd(EntryParse(Text), xs, r.Rest());
    return Success(xs);
  }

  method DecodeReceipt(r: Reader, binding: Binding) returns (answer: Result<Receipt>)
    requires r.Valid() && r.maximumCount == NO_LIMIT
    modifies r
    ensures r.Agrees(ParseReceipt(binding, old(r.Rest())), answer)
  {
    hide ParseU16, ParseControl, ParseVector, ParseDigest, ParseOption, MakeReceipt;
    var schema :- r.U16();
    if schema != SCHEMA {
      return Failure(UnsupportedVersion);
    }
    var control :- DecodeControl(r);
    var manifest :- DecodeManifest(r);
    var plan :- r.Digest();
    var evidence :- r.Digest();
    var transaction :- r.OptionalDigest();
    answer := Constructed(MakeReceipt(control, binding, manifest, plan, evidence, transaction));
  }
}
