/** The imperative writers and readers of publication requests and receipts. */
module PublicationStreams {
  import opened Core
  import opened Order
  import opened Wire
  import opened Model
  import opened SourceStreams
  import opened ReceiptCodec
  import opened Snapshots
  import opened SnapshotStreams
  import opened GenerationCodec
  import opened Streams
  import opened ReceiptStreams
  import opened Requests
  import opened RequestStreams
  import opened Receipts
  import opened PublicationIdentities
  import PC = PublicationCodec

  // ---- shared pieces ---------------------------------------------------------------

  method AppendChecksum(w: ByteSink, maximum: nat) returns (r: Result<Bytes>)
    requires maximum >= PC.CHECKSUM_SIZE
    modifies w
    ensures r == PC.Seal(old(w.bytes), maximum)
    ensures r.Success? ==> w.bytes == r.value
    ensures r.Failure? ==> w.bytes == old(w.bytes)
  {
    if |w.bytes| > maximum - PC.CHECKSUM_SIZE {
      return Failure(LimitExceeded);
    }
    var checksum := SHA256(w.bytes);
    w.Raw(checksum);
    return Success(w.bytes);
  }

  method ReadPrefix(input: Reader, magic: Bytes) returns (answer: Result<()>)
    requires input.Valid()
    modifies input
    ensures input.Agrees(PC.ParsePrefix(magic, old(input.Rest())), answer)
  {
    hide ParseU16;
    var rest := input.bytes[input.position..];
    if !(magic <= rest) {
      return Failure(InvalidMagic);
    }
    TakePrefix(magic, rest[|magic|..]);
    assert rest == magic + rest[|magic|..];
    var _ := input.Expect(magic);   // cannot fail: the prefix has just been compared
    var version :- input.U16();
    if version != PC.ENCODING_VERSION {
      return Failure(UnsupportedVersion);
    }
    return Success(());
  }

  method ReadThree(input: Reader) returns (answer: Result<(Digest, Digest, Digest)>)
    requires input.Valid()
    modifies input
    ensures input.Agrees(PC.ParseThree(old(input.Rest())), answer)
  {
    hide ParseDigest;
    var a :- input.Digest();
    var b :- input.Digest();
    var c :- input.Digest();
    return Success((a, b, c));
  }

  method EncodeProposedPackage(p: Package) returns (bytes: Bytes)
    ensures bytes == PC.ProposedBody(p)
  {
    hide MakeSnapshot, EncodeSnapshot;
    var s := Make(p.Binding(), [p]);
    match s
    case Some(only) => bytes := EncodeSnapshotBytes(only);
    case None => bytes := [];
  }

  method DecodeProposedPackage(bytes: Bytes, binding: Binding, name: Bytes) returns (p: Option<Package>)
    ensures p == PC.DecodeProposed(bytes, binding, name)
  {
    hide DecodeSnapshot;
    var proposed := DecodeSnapshotBytes(bytes);
    if proposed.Failure? {
      return None;
    }
    var s := proposed.value;
    if s.binding != binding || |s.packages| != 1 {
      return None;
    }
    if s.packages[0].Name() != name {
      return None;
    }
    return Some(s.packages[0]);
  }

  // ---- writing requests ---------------------------------------------------------------

  method EncodeDelta(w: ByteSink, d: Delta)
    requires w.form == Text
    modifies w
    ensures w.bytes == old(w.bytes) + PC.EncDelta(d)
  {
    hide PC.EncDeltaHead, EncOption;
    EncodeDeltaHead(w, d);
    w.OptionalDigest(d.Expected());
    EncodeProposal(w, d.Proposed());
  }

  method EncodeDeltaHead(w: ByteSink, d: Delta)
    requires w.form == Text
    modifies w
    ensures w.bytes == old(w.bytes) + PC.EncDeltaHead(d)
  {
    hide EncBytes, EncDigest;
    w.U8(d.Code());
    w.Bytes(d.Name());
    w.Digest(d.plan);
    w.Digest(d.evidence);
  }

  method EncodeProposal(w: ByteSink, proposed: Option<Package>)
    modifies w
    ensures w.bytes == old(w.bytes) + EncOption(PC.EncProposal, proposed)
  {
    hide EncBytes, PC.ProposedBody;
    w.Boolean(proposed.Some?);
    if proposed.Some? {
      var body := EncodeProposedPackage(proposed.value);
      w.Bytes(body);
    }
  }

  method EncodeDeltas(w: ByteSink, xs: seq<Delta>)
    requires w.form == Text
    modifies w
    ensures w.bytes == old(w.bytes) + EncVector(PC.EncDelta, xs)
  {
    hide PC.EncDelta, EncU64;
    w.U64(|xs|);
    ghost var start := w.bytes;
    for i := 0 to |xs|
      invariant w.bytes == start + EncList(PC.EncDelta, xs[..i])
    {
      EncListStep(PC.EncDelta, xs, i);
      EncodeDelta(w, xs[i]);
    }
    assert xs[..|xs|] == xs;
  }

  method EncodeRequestBytes(r: Request) returns (answer: Result<Bytes>)
    ensures answer == PC.EncodeRequest(r)
  {
    hide EncU16, EncDigest, EncVector, EncOption, RequestId, BindingId;
    var output := new ByteSink.Writer();
    output.Raw(PC.REQUEST_MAGIC);
    output.U16(PC.ENCODING_VERSION);
    var identity := IdentifyRequest(r);
    output.Digest(identity);
    output.Digest(r.expected);
    var target := IdentifyBinding(r.binding);
    output.Digest(target);
    EncodeDeltas(output, r.deltas);
    output.OptionalDigest(r.transaction);
    assert output.bytes == PC.RequestPayload(r);
    answer := AppendChecksum(output, PC.MAXIMUM_REQUEST);
  }

  // ---- reading requests ---------------------------------------------------------------

  method DecodeDeltaHead(input: Reader) returns (answer: Result<(Byte, Bytes, Digest, Digest)>)
    requires input.Valid()
    modifies input
    ensures input.Agrees(PC.ParseDeltaHead(old(input.Rest())), answer)
  {
    hide ParseBytes, ParseDigest;
    var code :- input.U8();
    if !(1 <= code <= 3) {
      return Failure(InvalidValue);
    }
    var name :- input.Bytes();
    var plan :- input.Digest();
    var evidence :- input.Digest();
    return Success((code, name, plan, evidence));
  }

  method DecodeProposal(input: Reader, binding: Binding, name: Bytes) returns (answer: Result<Option<Package>>)
    requires input.Valid()
    modifies input
    ensures input.Agrees(ParseOption(PC.ProposalParse(binding, name), old(input.Rest())), answer)
  {
    hide ParseBytes, ParseBool, PC.DecodeProposed;
    var present :- input.Boolean();
    if !present {
      return Success(None);
    }
    var bytes :- input.Bytes();
    var made := DecodeProposedPackage(bytes, binding, name);
    var p :- Constructed(made);
    return Success(Some(p));
  }

  method DecodeDelta(input: Reader, binding: Binding) returns (answer: Result<Delta>)
    requires input.Valid()
    modifies input
    ensures input.Agrees(PC.ParseDelta(binding, old(input.Rest())), answer)
  {
    hide PC.ParseDeltaHead, ParseOption, PC.MakeDelta;
    var head :- DecodeDeltaHead(input);
    var expected :- input.OptionalDigest();
    var proposed :- DecodeProposal(input, binding, head.1);
    answer := Constructed(PC.MakeDelta(head.0, head.1, head.2, head.3, expected, proposed));
  }

  method DecodeDeltas(input: Reader, binding: Binding) returns (answer: Result<seq<Delta>>)
    requires input.Valid()
    modifies input
    ensures input.Agrees(ParseVector(PC.DeltaParse(binding), input.maximumCount, old(input.Rest())), answer)
  {
    hide PC.ParseDelta, ParseCount;
    var count :- input.Count();
    var xs: seq<Delta> := [];
    ghost var whole := ParseList(PC.DeltaParse(binding), count, input.Rest());
    PrependNothing(whole);
    for i := 0 to count
      invariant input.Valid()
      invariant whole == Prepend(xs, ParseList(PC.DeltaParse(binding), count - i, input.Rest()))
    {
      ParseListStep(PC.DeltaParse(binding), count - i, xs, input.Rest());
      var x :- DecodeDelta(input, binding);
      xs := xs + [x];
    }
    ParseListEnd(PC.DeltaParse(binding), xs, input.Rest());
    return Success(xs);
  }

  method ReadRequest(input: Reader, s: Snapshot) returns (answer: Result<(Digest, seq<Delta>, Option<Digest>)>)
    requires input.Valid() && input.maximumCount == PC.MAXIMUM_COUNT
    modifies input
    ensures input.Agrees(PC.ParseRequest(s, old(input.Rest())), answer)
  {
    hide PC.ParsePrefix, PC.ParseThree, ParseVector, ParseOption, BindingId;
    var _ :- ReadPrefix(input, PC.REQUEST_MAGIC);
    var head :- ReadThree(input);
    var target := IdentifyBinding(s.binding);
    if head.1 != s.identity || head.2 != target {
      return Failure(ExpectedSnapshotMismatch);
    }
    var deltas :- DecodeDeltas(input, s.binding);
    var transaction :- input.OptionalDigest();
    return Success((head.0, deltas, transaction));
  }

  method DecodeRequestBytes(encoding: Bytes, s: Snapshot) returns (answer: Result<Request>)
    requires Strict(NameKey, s.packages)
    ensures answer == PC.DecodeRequest(encoding, s)
  {
    hide PC.Unseal, PC.ParseRequest, MakeRequest, RequestId, PC.EncodeRequest;
    var body :- PC.Unseal(encoding, PC.MAXIMUM_REQUEST);
    var input := new Reader(body, PC.MAXIMUM_COUNT);
    var fields :- ReadRequest(input, s);
    if input.position != |body| {
      return Failure(TrailingData);
    }
    var result := MakePublicationRequest(s, fields.1, fields.2);
    if result.None? {
      return Failure(InvalidValue);
    }
    var identity := IdentifyRequest(result.value);
    if identity != fields.0 {
      return Failure(IdentityMismatch);
    }
    var canonical :- EncodeRequestBytes(result.value);
    return if canonical == encoding then Success(result.value) else Failure(InvalidValue);
  }

  // ---- receipts --------------------------------------------------------------------------

  method WriteReceiptContext(output: ByteSink, rc: PublicationReceipt)
    requires output.form == Text
    modifies output
    ensures output.bytes == old(output.bytes) + (PC.ReceiptHead(rc) + PC.ReceiptContext(rc))
  {
    hide EncDigest, EncBytes, PublicationReceiptId, BindingId;
    var identity := IdentifyPublicationReceipt(rc);
    output.Digest(identity);
    output.Digest(rc.request);
    output.Digest(rc.expected);
    assert output.bytes == old(output.bytes) + PC.ReceiptHead(rc);
    ghost var head := output.bytes;
    output.Digest(rc.actual);
    var target := IdentifyBinding(rc.binding);
    output.Digest(target);
    output.Bytes(rc.format);
    assert output.bytes == head + PC.ReceiptContext(rc);
  }

  method WriteReceiptTail(output: ByteSink, rc: PublicationReceipt)
    requires output.form == Text
    modifies output
    ensures output.bytes == old(output.bytes) + PC.ReceiptTail(rc)
  {
    hide EncDigest, EncVector, EncOption;
    output.U8(rc.outcome.Code());
    output.U8(rc.durability.Code());
    output.U8(rc.atomicity.Code());
    output.OptionalDigest(rc.resulting);
    output.Digests(rc.evidence);
  }

  method EncodeReceiptBytes(rc: PublicationReceipt) returns (answer: Result<Bytes>)
    ensures answer == PC.EncodeReceipt(rc)
  {
    hide EncU16, PC.ReceiptHead, PC.ReceiptContext, PC.ReceiptTail;
    var output := new ByteSink.Writer();
    output.Raw(PC.RECEIPT_MAGIC);
    output.U16(PC.ENCODING_VERSION);
    WriteReceiptContext(output, rc);
    WriteReceiptTail(output, rc);
    assert output.bytes == PC.ReceiptPayload(rc);
    answer := AppendChecksum(output, PC.MAXIMUM_RECEIPT);
  }

  method DecodeEvidence(input: Reader) returns (answer: Result<seq<Digest>>)
    requires input.Valid()
    modifies input
    ensures input.Agrees(ParseVector(DigestParse(Text), input.maximumCount, old(input.Rest())), answer)
  {
    hide ParseDigest, ParseCount;
    var count :- input.Count();
    var xs: seq<Digest> := [];
    ghost var whole := ParseList(DigestParse(Text), count, input.Rest());
    PrependNothing(whole);
    for i := 0 to count
      invariant input.Valid()
      invariant whole == Prepend(xs, ParseList(DigestParse(Text), count - i, input.Rest()))
    {
      ParseListStep(DigestParse(Text), count - i, xs, input.Rest());
      var x :- input.Digest();
      xs := xs + [x];
    }
    ParseListEnd(DigestParse(Text), xs, input.Rest());
    return Success(xs);
  }

  method ReadReceiptTail(input: Reader) returns (answer: Result<PC.ReceiptFields>)
    requires input.Valid() && input.maximumCount == PC.MAXIMUM_COUNT
    modifies input
    ensures input.Agrees(PC.ParseReceiptTail(old(input.Rest())), answer)
  {
    hide ParseOption, ParseVector;
    var outcomeCode :- input.U8();
    var outcome :- Constructed(PC.OutcomeOf(outcomeCode));
    var durabilityCode :- input.U8();
    var durability :- Constructed(PC.DurabilityOf(durabilityCode));
    var atomicityCode :- input.U8();
    var atomicity :- Constructed(PC.AtomicityOf(atomicityCode));
    var resulting :- input.OptionalDigest();
    var evidence :- DecodeEvidence(input);
    return Success(PC.ReceiptFields(outcome, durability, atomicity, resulting, evidence));
  }

  method ReadReceipt(input: Reader, r: Request, prior: Snapshot) returns (answer: Result<(Digest, Bytes, PC.ReceiptFields)>)
    requires input.Valid() && input.maximumCount == PC.MAXIMUM_COUNT
    modifies input
    ensures input.Agrees(PC.ParseReceiptRecord(r, prior, old(input.Rest())), answer)
  {
    hide PC.ParsePrefix, PC.ParseThree, ParseDigest, ParseBytes, PC.ParseReceiptTail, BindingId, RequestId;
    var _ :- ReadPrefix(input, PC.RECEIPT_MAGIC);
    var head :- ReadThree(input);
    var actual :- input.Digest();
    var target :- input.Digest();
    var request := IdentifyRequest(r);
    var binding := IdentifyBinding(r.binding);
    if head.1 != request || head.2 != r.expected {
      return Failure(RequestMismatch);
    }
    if actual != prior.identity {
      return Failure(ActualPriorMismatch);
    }
    if target != binding || prior.binding != r.binding {
      return Failure(ActualPriorMismatch);
    }
    var format :- input.Bytes();
    var fields :- ReadReceiptTail(input);
    return Success((head.0, format, fields));
  }

  method DecodeReceiptBytes(encoding: Bytes, r: Request, prior: Snapshot) returns (answer: Result<PublicationReceipt>)
    ensures answer == PC.DecodeReceipt(encoding, r, prior)
  {
    hide PC.Unseal, PC.ParseReceiptRecord, PC.RebuildReceipt, PublicationReceiptId, PC.EncodeReceipt;
    var body :- PC.Unseal(encoding, PC.MAXIMUM_RECEIPT);
    var input := new Reader(body, PC.MAXIMUM_COUNT);
    var fields :- ReadReceipt(input, r, prior);
    if input.position != |body| {
      return Failure(TrailingData);
    }
    var result := PC.RebuildReceipt(r, prior, fields.1, fields.2);
    if result.None? {
      return Failure(InvalidValue);
    }
    var identity := IdentifyPublicationReceipt(result.value);
    if identity != fields.0 {
      return Failure(IdentityMismatch);
    }
    var canonical :- EncodeReceiptBytes(result.value);
    return if canonical == encoding then Success(result.value) else Failure(InvalidValue);
  }
}
