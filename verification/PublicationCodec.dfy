/** The durable encodings of publication requests and receipts.  Decoding needs
    the exact snapshot, or the exact request and prior state, that the record
    speaks of. */
module PublicationCodec {
  import opened Core
  import opened Order
  import opened Wire
  import opened Model
  import opened SourceCodec
  import opened ReceiptCodec
  import opened Snapshots
  import opened SnapshotStreams
  import opened GenerationCodec
  import opened Requests
  import opened Receipts

  const REQUEST_MAGIC: Bytes := [90, 76, 83, 80, 82, 81, 83, 84]   // ZLSPRQST
  const RECEIPT_MAGIC: Bytes := [90, 76, 83, 80, 82, 67, 80, 84]   // ZLSPRCPT
  const ENCODING_VERSION: U16 := 1
  const CHECKSUM_SIZE: nat := 32
  const MAXIMUM_COUNT: nat := 0x10_0000
  const MAXIMUM_REQUEST: nat := 0x4000_0000
  const MAXIMUM_RECEIPT: nat := 0x400_0000

  // ---- sealing with a checksum ----------------------------------------------------

  function Seal(body: Bytes, maximum: nat): Result<Bytes>
    requires maximum >= CHECKSUM_SIZE
  {
    if |body| > maximum - CHECKSUM_SIZE then Failure(LimitExceeded) else Success(body + SHA256(body))
  }

  function Unseal(encoding: Bytes, maximum: nat): Result<Bytes> {
    if |encoding| > maximum then Failure(LimitExceeded)
    else if |encoding| < CHECKSUM_SIZE then Failure(Truncated)
    else
      var size := |encoding| - CHECKSUM_SIZE;
      if encoding[size..] != SHA256(encoding[..size]) then Failure(ChecksumMismatch) else Success(encoding[..size])
  }

  /** A record opens to a body exactly when it is that body sealed. */
  lemma SealExact(body: Bytes, encoding: Bytes, maximum: nat)
    requires maximum >= CHECKSUM_SIZE
    ensures Unseal(encoding, maximum) == Success(body) <==> Seal(body, maximum) == Success(encoding)
    ensures Unseal(encoding, maximum) == Success(body) <==> |encoding| <= maximum && encoding == body + SHA256(body)
  {
    var sum := SHA256(body);
    if encoding == body + sum {
      assert encoding[..|body|] == body && encoding[|body|..] == sum;
    }
    if Seal(body, maximum) == Success(encoding) {
      assert encoding[..|body|] == body && encoding[|body|..] == sum;
    }
    if Unseal(encoding, maximum) == Success(body) {
      assert encoding == body + encoding[|body|..];
    }
  }

  /** Why a record does not open. */
  lemma UnsealRefusals(encoding: Bytes, maximum: nat)
    ensures Unseal(encoding, maximum) == Failure(LimitExceeded) <==> |encoding| > maximum
    ensures Unseal(encoding, maximum) == Failure(Truncated) <==> |encoding| <= maximum && |encoding| < 32
    ensures Unseal(encoding, maximum) == Failure(ChecksumMismatch)
       <==> 32 <= |encoding| <= maximum && forall body :: encoding != body + SHA256(body)
  {
    if 32 <= |encoding| <= maximum {
      var size := |encoding| - 32;
      assert encoding == encoding[..size] + encoding[size..];
      forall body | encoding == body + SHA256(body) ensures Unseal(encoding, maximum) == Success(body) {
        assert encoding[..|body|] == body && encoding[|body|..] == SHA256(body);
      }
    }
  }

  /** Any change of the body under the same checksum is detected, or a collision is
      exhibited. */
  lemma CorruptionDetected(body: Bytes, changed: Bytes, maximum: nat)
    requires body != changed && |changed| + CHECKSUM_SIZE <= maximum
    ensures Unseal(changed + SHA256(body), maximum) == Failure(ChecksumMismatch) || Collision(body, changed)
  {
    var encoding := changed + SHA256(body);
    assert encoding[..|changed|] == changed && encoding[|changed|..] == SHA256(body);
  }

  /** The magic is compared before anything is read, so a short record has a bad
      magic rather than a truncated one. */
  function ParsePrefix(magic: Bytes, s: Bytes): Parsed<()> {
    if !(magic <= s) then Rejected(InvalidMagic)
    else
      var (version, s) :- ParseU16(s[|magic|..]);
      if version != ENCODING_VERSION then Rejected(UnsupportedVersion) else Parsed((), s)
  }

  lemma PrefixRoundTrip(magic: Bytes, rest: Bytes)
    ensures ParsePrefix(magic, magic + (EncU16(ENCODING_VERSION) + rest)) == Parsed((), rest)
  {
    hide EncU16, ParseU16;
    U16RoundTrip(ENCODING_VERSION, rest);
    assert (magic + (EncU16(ENCODING_VERSION) + rest))[|magic|..] == EncU16(ENCODING_VERSION) + rest;
  }

  /** The magic, then the bytes 00 01; anything else has its own category. */
  lemma PrefixExact(magic: Bytes, s: Bytes)
    ensures ParsePrefix(magic, s) ==
              if !(magic <= s) then Rejected(InvalidMagic)
              else if |s| < |magic| + 2 then Rejected(Truncated)
              else if s[|magic|..|magic| + 2] != [0, 1] then Rejected(UnsupportedVersion)
              else Parsed((), s[|magic| + 2..])
  {
    hide ParseU16;
    if magic <= s {
      var t := s[|magic|..];
      if |t| >= 2 {
        assert t == [t[0], t[1]] + t[2..];
        U16At(t[0], t[1], t[2..]);
        assert s[|magic|..|magic| + 2] == [t[0], t[1]];
        assert t[2..] == s[|magic| + 2..];
      } else {
        ShortU16(t);
      }
    }
  }

  lemma ShortU16(s: Bytes)
    requires |s| < 2
    ensures ParseU16(s) == Rejected(Truncated)
  {
  }

  // ---- proposed packages --------------------------------------------------------------

  /** The generation record of the snapshot that holds just this package. */
  function ProposedBody(p: Package): Bytes {
    match MakeSnapshot(p.Binding(), [p])
    case Some(s) => EncodeSnapshot(s)
    case None => []
  }

  /** A single package always makes a snapshot. */
  lemma SingletonMade(p: Package)
    requires ValidPackage(p)
    ensures MakeSnapshot(p.Binding(), [p]).Some?
    ensures var s := MakeSnapshot(p.Binding(), [p]).value;
            ValidSnapshot(s) && s.binding == p.Binding() && s.packages == [p]
  {
    hide ValidPackage, PackageId, OwnsPath, MakeSnapshot, ValidSnapshot;
    SnapshotMade(p.Binding(), [p]);
    assert DistinctKeys(NameKey, [p]);
    assert !DoubleClaim([p]);
    MadeSnapshot(p.Binding(), [p]);
    SingletonPackages(p);
  }

  lemma SingletonPackages(p: Package)
    requires MakeSnapshot(p.Binding(), [p]).Some?
    ensures MakeSnapshot(p.Binding(), [p]).value.packages == [p] && MakeSnapshot(p.Binding(), [p]).value.binding == p.Binding()
  {
    hide ClaimsOf, SortOwners, IndexOf, SnapshotId, OwnershipId;
    NormalizeFixes(NameKey, [p]);
  }

  function DecodeProposed(bytes: Bytes, binding: Binding, name: Bytes): Option<Package> {
    var s :- DecodeSnapshot(bytes);
    if s.binding != binding || |s.packages| != 1 then None
    else if s.packages[0].Name() != name then None
    else Some(s.packages[0])
  }

  /** The embedded record gives back exactly the package, under its own name and
      target, and nothing else is accepted for it. */
  lemma ProposedExact(bytes: Bytes, binding: Binding, name: Bytes, p: Package)
    ensures DecodeProposed(bytes, binding, name) == Some(p)
       <==> ValidPackage(p) && p.Binding() == binding && p.Name() == name && bytes == ProposedBody(p)
  {
    hide ValidPackage, DecodeSnapshot, EncodeSnapshot, MakeSnapshot;
    if DecodeProposed(bytes, binding, name) == Some(p) {
      var s := DecodeSnapshot(bytes).value;
      SnapshotExact(bytes, s);
      SnapshotSorted(s);
      assert s.packages == [p];
      SingletonMade(p);
    }
    if ValidPackage(p) && p.Binding() == binding && p.Name() == name && bytes == ProposedBody(p) {
      SingletonMade(p);
      SnapshotExact(bytes, MakeSnapshot(p.Binding(), [p]).value);
    }
  }

  // ---- deltas ------------------------------------------------------------------------------

  function EncProposal(p: Package): Bytes { EncBytes(ProposedBody(p)) }

  function EncDeltaHead(d: Delta): Bytes {
    [d.Code()] + EncBytes(d.Name()) + EncDigest(Text, d.plan) + EncDigest(Text, d.evidence)
  }

  function EncDelta(d: Delta): Bytes {
    EncDeltaHead(d) + EncOption(DigestEnc(Text), d.Expected()) + EncOption(EncProposal, d.Proposed())
  }

  function ParseDeltaKind(s: Bytes): Parsed<Byte> {
    var (code, s) :- ParseU8(s);
    if 1 <= code <= 3 then Parsed(code, s) else Rejected(InvalidValue)
  }

  function ParseDeltaHead(s: Bytes): Parsed<(Byte, Bytes, Digest, Digest)> {
    var (code, s) :- ParseDeltaKind(s);
    var (name, s) :- ParseBytes(s);
    var (plan, s) :- ParseDigest(Text, s);
    var (evidence, s) :- ParseDigest(Text, s);
    Parsed((code, name, plan, evidence), s)
  }

  function ParseProposal(binding: Binding, name: Bytes, s: Bytes): Parsed<Package> {
    var (bytes, s) :- ParseBytes(s);
    Built(DecodeProposed(bytes, binding, name), s)
  }

  function ProposalParse(binding: Binding, name: Bytes): Bytes -> Parsed<Package> {
    s => ParseProposal(binding, name, s)
  }

  /** The shape check of the decoder followed by the delta's factory. */
  function MakeDelta(code: Byte, name: Bytes, plan: Digest, evidence: Digest,
                     prior: Option<Digest>, proposed: Option<Package>): Option<Delta>
  {
    if code == 1 then
      if prior.Some? || proposed.None? then None else MakeInstall(proposed.value, plan, evidence)
    else if code == 2 then
      if prior.None? || proposed.None? then None else MakeReplace(prior.value, proposed.value, plan, evidence)
    else
      if prior.None? || proposed.Some? then None else MakeRemove(name, prior.value, plan, evidence)
  }

  function ParseDelta(binding: Binding, s: Bytes): Parsed<Delta> {
    var (head, s) :- ParseDeltaHead(s);
    var (prior, s) :- ParseOption(DigestParse(Text), s);
    var (proposed, s) :- ParseOption(ProposalParse(binding, head.1), s);
    Built(MakeDelta(head.0, head.1, head.2, head.3, prior, proposed), s)
  }

  function DeltaParse(binding: Binding): Bytes -> Parsed<Delta> { s => ParseDelta(binding, s) }

  /** What the decoder can give back: a delta bound to the target whose embedded
      record has a length that fits its prefix. */
  ghost predicate Carried(binding: Binding, d: Delta) {
    ValidDelta(d) && Sized(d.Name()) && (!d.Remove? ==> d.proposed.Binding() == binding && Sized(ProposedBody(d.proposed)))
  }

  lemma DeltaHeadRoundTrip(d: Delta, rest: Bytes)
    requires Sized(d.Name())
    ensures ParseDeltaHead(EncDeltaHead(d) + rest) == Parsed((d.Code(), d.Name(), d.plan, d.evidence), rest)
  {
    hide EncBytes, ParseBytes, EncDigest, ParseDigest;
    var afterPlan := EncDigest(Text, d.evidence) + rest;
    var afterName := EncDigest(Text, d.plan) + afterPlan;
    assert EncDeltaHead(d) + rest == [d.Code()] + (EncBytes(d.Name()) + afterName);
    U8RoundTrip(d.Code(), EncBytes(d.Name()) + afterName);
    BytesRoundTrip(d.Name(), afterName);
    DigestRoundTrip(Text, d.plan, afterPlan);
    DigestRoundTrip(Text, d.evidence, rest);
  }

  lemma ProposalInverse(p: Package)
    requires ValidPackage(p) && Sized(ProposedBody(p))
    ensures Inverse(EncProposal, ProposalParse(p.Binding(), p.Name()), p)
  {
    hide ProposedBody, DecodeProposed, EncBytes, ParseBytes, ValidPackage;
    forall rest: Bytes ensures ParseProposal(p.Binding(), p.Name(), EncProposal(p) + rest) == Parsed(p, rest) {
      BytesRoundTrip(ProposedBody(p), rest);
      ProposedExact(ProposedBody(p), p.Binding(), p.Name(), p);
    }
  }

  lemma DeltaRebuilt(d: Delta)
    requires ValidDelta(d)
    ensures MakeDelta(d.Code(), d.Name(), d.plan, d.evidence, d.Expected(), d.Proposed()) == Some(d)
  {
    hide ValidPackage, PackageId;
  }

  lemma DeltaRoundTrip(binding: Binding, d: Delta, rest: Bytes)
    requires Carried(binding, d)
    ensures ParseDelta(binding, EncDelta(d) + rest) == Parsed(d, rest)
  {
    hide EncDeltaHead, ParseDeltaHead, EncOption, ParseOption, EncProposal, ProposalParse, MakeDelta, ValidPackage, ProposedBody;
    var afterExpected := EncOption(EncProposal, d.Proposed()) + rest;
    var afterHead := EncOption(DigestEnc(Text), d.Expected()) + afterExpected;
    assert EncDelta(d) + rest == EncDeltaHead(d) + afterHead;
    DeltaHeadRoundTrip(d, afterHead);
    if d.Expected().Some? { DigestInverse(Text, d.Expected().value); }
    OptionRoundTrip(DigestEnc(Text), DigestParse(Text), d.Expected(), afterExpected);
    if d.Proposed().Some? { ProposalInverse(d.proposed); }
    OptionRoundTrip(EncProposal, ProposalParse(binding, d.Name()), d.Proposed(), rest);
    DeltaRebuilt(d);
  }

  lemma DeltaInverse(binding: Binding, d: Delta)
    requires Carried(binding, d)
    ensures Inverse(EncDelta, DeltaParse(binding), d) && |EncDelta(d)| >= 1
  {
    hide EncDelta, ParseDelta, Carried;
    forall rest: Bytes ensures ParseDelta(binding, EncDelta(d) + rest) == Parsed(d, rest) {
      DeltaRoundTrip(binding, d, rest);
    }
    DeltaNotEmpty(d);
  }

  lemma DeltaNotEmpty(d: Delta)
    ensures |EncDelta(d)| >= 1
  {
    hide EncBytes, EncDigest, EncOption;
  }

  lemma ProposalParses(binding: Binding, name: Bytes, s: Bytes)
    ensures var r := ParseOption(ProposalParse(binding, name), s);
            r.Parsed? && r.value.Some? ==> ValidPackage(r.value.value)
  {
    hide ValidPackage, DecodeProposed, ParseBytes;
    var present := ParseBool(s);
    if present.Parsed? && present.value {
      var bytes := ParseBytes(present.rest);
      if bytes.Parsed? && DecodeProposed(bytes.value, binding, name).Some? {
        ProposedExact(bytes.value, binding, name, DecodeProposed(bytes.value, binding, name).value);
      }
    }
  }

  lemma DeltaParses(binding: Binding, s: Bytes)
    ensures ParseDelta(binding, s).Parsed? ==> ValidDelta(ParseDelta(binding, s).value)
  {
    hide ValidPackage, ParseOption, ParseDigest, ParseBytes, PackageId;
    if ParseDelta(binding, s).Parsed? {
      var head := ParseDeltaHead(s);
      var prior := ParseOption(DigestParse(Text), head.rest);
      ProposalParses(binding, head.value.1, prior.rest);
    }
  }

  // ---- requests --------------------------------------------------------------------------------

  function RequestHead(r: Request): Bytes {
    EncDigest(Text, RequestId(r)) + EncDigest(Text, r.expected) + EncDigest(Text, BindingId(r.binding))
  }

  function RequestTail(r: Request): Bytes {
    EncVector(EncDelta, r.deltas) + EncOption(DigestEnc(Text), r.transaction)
  }

  function RequestPayload(r: Request): Bytes {
    REQUEST_MAGIC + (EncU16(ENCODING_VERSION) + (RequestHead(r) + RequestTail(r)))
  }

  function EncodeRequest(r: Request): Result<Bytes> { Seal(RequestPayload(r), MAXIMUM_REQUEST) }

  function ParseThree(s: Bytes): Parsed<(Digest, Digest, Digest)> {
    var (a, s) :- ParseDigest(Text, s);
    var (b, s) :- ParseDigest(Text, s);
    var (c, s) :- ParseDigest(Text, s);
    Parsed((a, b, c), s)
  }

  function ParseRequest(s: Snapshot, body: Bytes): Parsed<(Digest, seq<Delta>, Option<Digest>)> {
    var (_, t) :- ParsePrefix(REQUEST_MAGIC, body);
    var (head, t) :- ParseThree(t);
    if head.1 != s.identity || head.2 != BindingId(s.binding) then Rejected(ExpectedSnapshotMismatch)
    else
      var (deltas, t) :- ParseVector(DeltaParse(s.binding), MAXIMUM_COUNT, t);
      var (transaction, t) :- ParseOption(DigestParse(Text), t);
      Parsed((head.0, deltas, transaction), t)
  }

  /** The checks after reading: identity, then canonical re-encoding. */
  function AdmitRequest(encoding: Bytes, identity: Digest, made: Option<Request>): Result<Request> {
    if made.None? then Failure(InvalidValue)
    else if RequestId(made.value) != identity then Failure(IdentityMismatch)
    else
      var canonical :- EncodeRequest(made.value);
      if canonical == encoding then Success(made.value) else Failure(InvalidValue)
  }

  function DecodeRequest(encoding: Bytes, s: Snapshot): Result<Request> {
    var body :- Unseal(encoding, MAXIMUM_REQUEST);
    match ParseRequest(s, body)
    case Rejected(fault) => Failure(fault)
    case Parsed(fields, rest) =>
      if rest != [] then Failure(TrailingData)
      else AdmitRequest(encoding, fields.0, MakeRequest(s, fields.1, fields.2))
  }

  lemma ThreeRoundTrip(a: Digest, b: Digest, c: Digest, rest: Bytes)
    ensures ParseThree(EncDigest(Text, a) + EncDigest(Text, b) + EncDigest(Text, c) + rest) == Parsed((a, b, c), rest)
  {
    hide EncDigest, ParseDigest;
    assert EncDigest(Text, a) + EncDigest(Text, b) + EncDigest(Text, c) + rest
        == EncDigest(Text, a) + (EncDigest(Text, b) + (EncDigest(Text, c) + rest));
    DigestRoundTrip(Text, a, EncDigest(Text, b) + (EncDigest(Text, c) + rest));
    DigestRoundTrip(Text, b, EncDigest(Text, c) + rest);
    DigestRoundTrip(Text, c, rest);
  }

  lemma {:induction false} ElementSize<T>(enc: T -> Bytes, xs: seq<T>)
    ensures forall x :: x in xs ==> |enc(x)| <= |EncList(enc, xs)|
  {
    if xs != [] { ElementSize(enc, xs[1..]); }
  }

  /** An encodable request has few enough deltas for a u64 and carries each. */
  lemma EncodableCarries(r: Request, s: Snapshot)
    requires MadeFrom(r, s) && |RequestPayload(r)| <= MAXIMUM_REQUEST
    ensures Sized(r.deltas) && forall d :: d in r.deltas ==> Carried(s.binding, d)
  {
    hide ValidPackage, PackageId, Fits, ProposedBody, EncDigest, RequestId, BindingId, EncProposal, EncDeltaHead;
    RequestParts(r, s);
    assert |RequestTail(r)| <= |RequestPayload(r)|;
    assert |EncList(EncDelta, r.deltas)| <= |RequestTail(r)|;
    forall d | d in r.deltas ensures |EncDelta(d)| >= 1 { DeltaNotEmpty(d); }
    ListSize(EncDelta, r.deltas, 1);
    ElementSize(EncDelta, r.deltas);
    forall d | d in r.deltas ensures Carried(s.binding, d) {
      assert Accepts(s, r.transaction, d) && ValidDelta(d);
      assert |EncDelta(d)| <= MAXIMUM_REQUEST;
      DeltaSizes(d);
    }
  }

  lemma DeltaSizes(d: Delta)
    ensures |d.Name()| <= |EncDelta(d)|
    ensures !d.Remove? ==> |ProposedBody(d.proposed)| <= |EncDelta(d)|
  {
    hide ProposedBody, EncDigest;
    assert |EncBytes(d.Name())| == 8 + |d.Name()|;
    if !d.Remove? { assert |EncProposal(d.proposed)| == 8 + |ProposedBody(d.proposed)|; }
  }

  /** A request's payload under any identity, followed by anything. */
  function RequestImage(r: Request, identity: Digest, more: Bytes): Bytes {
    REQUEST_MAGIC + (EncU16(ENCODING_VERSION)
    + (EncDigest(Text, identity) + EncDigest(Text, r.expected) + EncDigest(Text, BindingId(r.binding)) + (RequestTail(r) + more)))
  }

  lemma RequestFieldsRoundTrip(r: Request, s: Snapshot, identity: Digest, more: Bytes)
    requires MadeFrom(r, s) && |RequestPayload(r)| <= MAXIMUM_REQUEST
    ensures |r.deltas| > MAXIMUM_COUNT ==> ParseRequest(s, RequestImage(r, identity, more)) == Rejected(LimitExceeded)
    ensures |r.deltas| <= MAXIMUM_COUNT ==>
              ParseRequest(s, RequestImage(r, identity, more)) == Parsed((identity, r.deltas, r.transaction), more)
  {
    hide ParsePrefix, ParseThree, EncDigest, ParseDigest, EncVector, ParseVector, EncOption, ParseOption, RequestId, BindingId,
         MadeFrom, Carried, EncDelta, ParseDelta, EncU16;
    RequestMadeParts(r, s);
    EncodableCarries(r, s);
    var tail := RequestTail(r) + more;
    PrefixRoundTrip(REQUEST_MAGIC,
                    EncDigest(Text, identity) + EncDigest(Text, r.expected) + EncDigest(Text, BindingId(r.binding)) + tail);
    ThreeRoundTrip(identity, r.expected, BindingId(r.binding), tail);
    forall d | d in r.deltas ensures Inverse(EncDelta, DeltaParse(s.binding), d) && |EncDelta(d)| >= 1 {
      DeltaInverse(s.binding, d);
    }
    var transaction := EncOption(DigestEnc(Text), r.transaction);
    assert tail == EncVector(EncDelta, r.deltas) + (transaction + more);
    VectorRoundTrip(EncDelta, DeltaParse(s.binding), MAXIMUM_COUNT, r.deltas, transaction + more);
    if r.transaction.Some? { DigestInverse(Text, r.transaction.value); }
    OptionRoundTrip(DigestEnc(Text), DigestParse(Text), r.transaction, more);
  }

  lemma RequestImageIs(r: Request)
    ensures RequestImage(r, RequestId(r), []) == RequestPayload(r)
  {
    hide EncU16, EncDigest, RequestTail, RequestId, BindingId;
    assert RequestTail(r) + [] == RequestTail(r);
  }

  lemma RequestMadeParts(r: Request, s: Snapshot)
    requires MadeFrom(r, s)
    ensures r.expected == s.identity && r.binding == s.binding
  {
    RequestParts(r, s);
  }

  lemma RequestParses(s: Snapshot, body: Bytes)
    ensures var r := ParseRequest(s, body);
            r.Parsed? ==> ValidDeltas(r.value.1) && |r.value.1| <= MAXIMUM_COUNT
  {
    hide ParsePrefix, ParseThree, ParseVector, ParseOption, ParseDelta, BindingId, ValidDelta;
    if ParseRequest(s, body).Parsed? {
      forall t ensures DeltaParse(s.binding)(t).Parsed? ==> ValidDelta(DeltaParse(s.binding)(t).value) {
        DeltaParses(s.binding, t);
      }
      VectorAll(DeltaParse(s.binding), (d: Delta) => ValidDelta(d), MAXIMUM_COUNT,
                ParseThree(ParsePrefix(REQUEST_MAGIC, body).rest).rest);
    }
  }

  /** A request record is accepted against a snapshot exactly when it is the
      encoding of a request made from that snapshot with at most 2^20 deltas. */
  lemma RequestExact(encoding: Bytes, s: Snapshot, r: Request)
    ensures DecodeRequest(encoding, s) == Success(r)
       <==> MadeFrom(r, s) && EncodeRequest(r) == Success(encoding) && |r.deltas| <= MAXIMUM_COUNT
  {
    hide ParseRequest, RequestPayload, MadeFrom, MakeRequest, RequestId, Unseal, Seal, ValidDelta;
    if DecodeRequest(encoding, s) == Success(r) {
      var body := Unseal(encoding, MAXIMUM_REQUEST).value;
      var fields := ParseRequest(s, body).value;
      RequestParses(s, body);
      MadeRequest(s, fields.1, fields.2);
      MadeSize(s, fields.1, fields.2);
    }
    if MadeFrom(r, s) && EncodeRequest(r) == Success(encoding) && |r.deltas| <= MAXIMUM_COUNT {
      RequestDecodes(encoding, s, r);
    }
  }

  lemma MadeSize(s: Snapshot, deltas: seq<Delta>, transaction: Option<Digest>)
    requires MakeRequest(s, deltas, transaction).Some?
    ensures |MakeRequest(s, deltas, transaction).value.deltas| == |deltas|
  {
    NormalizeMeans(DeltaKey, deltas);
  }

  /** The encoder has no limit on the number of deltas but the decoder has, so an
      encoded request decodes if and only if it has at most 2^20 of them. */
  lemma RequestDecodes(encoding: Bytes, s: Snapshot, r: Request)
    requires MadeFrom(r, s) && EncodeRequest(r) == Success(encoding)
    ensures DecodeRequest(encoding, s)
         == if |r.deltas| <= MAXIMUM_COUNT then Success(r) else Failure(LimitExceeded)
  {
    hide ParseRequest, RequestPayload, MakeRequest, RequestId, Unseal, ValidDelta;
    SealExact(RequestPayload(r), encoding, MAXIMUM_REQUEST);
    RequestImageIs(r);
    RequestFieldsRoundTrip(r, s, RequestId(r), []);
  }

  /** A properly sealed record is refused, each time in its own category: for bytes after
      the request, for an identity that is not the request's, and for a prefix that is
      not this format's. */
  lemma RequestRefusals(r: Request, s: Snapshot, identity: Digest, more: Bytes)
    requires MadeFrom(r, s) && |RequestPayload(r)| <= MAXIMUM_REQUEST && |r.deltas| <= MAXIMUM_COUNT
    requires |RequestImage(r, identity, more)| + CHECKSUM_SIZE <= MAXIMUM_REQUEST
    ensures var sealed := RequestImage(r, identity, more) + SHA256(RequestImage(r, identity, more));
            && (more != [] ==> DecodeRequest(sealed, s) == Failure(TrailingData))
            && (more == [] && identity != RequestId(r) ==> DecodeRequest(sealed, s) == Failure(IdentityMismatch))
  {
    hide ParseRequest, RequestPayload, RequestImage, RequestId, Unseal, ValidDelta, MakeRequest;
    var body := RequestImage(r, identity, more);
    SealExact(body, body + SHA256(body), MAXIMUM_REQUEST);
    RequestFieldsRoundTrip(r, s, identity, more);
  }

  lemma RequestPrefixRefused(body: Bytes, s: Snapshot)
    requires |body| + CHECKSUM_SIZE <= MAXIMUM_REQUEST
    ensures var answer := DecodeRequest(body + SHA256(body), s);
            && (!(REQUEST_MAGIC <= body) ==> answer == Failure(InvalidMagic))
            && (REQUEST_MAGIC <= body && |body| < 10 ==> answer == Failure(Truncated))
            && (REQUEST_MAGIC <= body && |body| >= 10 && body[8..10] != [0, 1] ==> answer == Failure(UnsupportedVersion))
  {
    hide ParsePrefix, ParseThree, ParseVector, ParseOption, BindingId, Unseal;
    SealExact(body, body + SHA256(body), MAXIMUM_REQUEST);
    PrefixExact(REQUEST_MAGIC, body);
  }

  /** A request record is refused under any snapshot with another identity. */
  lemma ForeignSnapshotRefused(encoding: Bytes, r: Request, other: Snapshot)
    requires EncodeRequest(r) == Success(encoding) && other.identity != r.expected
    ensures DecodeRequest(encoding, other) == Failure(ExpectedSnapshotMismatch)
  {
    hide EncDigest, ParseThree, ParsePrefix, RequestId, BindingId, RequestTail, Unseal, EncU16;
    SealExact(RequestPayload(r), encoding, MAXIMUM_REQUEST);
    PrefixRoundTrip(REQUEST_MAGIC, RequestHead(r) + RequestTail(r));
    ThreeRoundTrip(RequestId(r), r.expected, BindingId(r.binding), RequestTail(r));
  }

  // ---- receipts --------------------------------------------------------------------------------

  function ReceiptHead(rc: PublicationReceipt): Bytes {
    EncDigest(Text, PublicationReceiptId(rc)) + EncDigest(Text, rc.request) + EncDigest(Text, rc.expected)
  }

  function ReceiptContext(rc: PublicationReceipt): Bytes {
    EncDigest(Text, rc.actual) + EncDigest(Text, BindingId(rc.binding)) + EncBytes(rc.format)
  }

  function ReceiptTail(rc: PublicationReceipt): Bytes {
    [rc.outcome.Code()] + [rc.durability.Code()] + [rc.atomicity.Code()]
    + EncOption(DigestEnc(Text), rc.resulting) + EncVector(DigestEnc(Text), rc.evidence)
  }

  function ReceiptPayload(rc: PublicationReceipt): Bytes {
    RECEIPT_MAGIC + (EncU16(ENCODING_VERSION) + (ReceiptHead(rc) + (ReceiptContext(rc) + ReceiptTail(rc))))
  }

  function EncodeReceipt(rc: PublicationReceipt): Result<Bytes> { Seal(ReceiptPayload(rc), MAXIMUM_RECEIPT) }

  function OutcomeOf(b: Byte): Option<PublicationOutcome> {
    if b == 1 then Some(Published) else if b == 2 then Some(StaleExpectedState)
    else if b == 3 then Some(RequestRejected) else if b == 4 then Some(FailedBeforePublication)
    else if b == 5 then Some(PublishedDurabilityUnconfirmed) else if b == 6 then Some(Indeterminate) else None
  }

  function DurabilityOf(b: Byte): Option<Durability> {
    if b == 1 then Some(NotAttempted) else if b == 2 then Some(Confirmed)
    else if b == 3 then Some(Unconfirmed) else if b == 4 then Some(Unknown) else None
  }

  function AtomicityOf(b: Byte): Option<Atomicity> {
    if b == 1 then Some(NoBoundary) else if b == 2 then Some(CompleteStateObjectReplace)
    else if b == 3 then Some(ImmutableGenerationSelection) else None
  }

  function ParseEnum<T>(of: Byte -> Option<T>, s: Bytes): Parsed<T> {
    var (code, s) :- ParseU8(s);
    Built(of(code), s)
  }

  datatype ReceiptFields = ReceiptFields(outcome: PublicationOutcome, durability: Durability, atomicity: Atomicity,
                                         resulting: Option<Digest>, evidence: seq<Digest>)

  function ParseReceiptTail(s: Bytes): Parsed<ReceiptFields> {
    var (outcome, s) :- ParseEnum(OutcomeOf, s);
    var (durability, s) :- ParseEnum(DurabilityOf, s);
    var (atomicity, s) :- ParseEnum(AtomicityOf, s);
    var (resulting, s) :- ParseOption(DigestParse(Text), s);
    var (evidence, s) :- ParseVector(DigestParse(Text), MAXIMUM_COUNT, s);
    Parsed(ReceiptFields(outcome, durability, atomicity, resulting, evidence), s)
  }

  /** Reads the whole record under its request and prior state. */
  function ParseReceiptRecord(r: Request, prior: Snapshot, body: Bytes): Parsed<(Digest, Bytes, ReceiptFields)> {
    var (_, s) :- ParsePrefix(RECEIPT_MAGIC, body);
    var (head, s) :- ParseThree(s);
    var (actual, s) :- ParseDigest(Text, s);
    var (target, s) :- ParseDigest(Text, s);
    if head.1 != RequestId(r) || head.2 != r.expected then Rejected(RequestMismatch)
    else if actual != prior.identity then Rejected(ActualPriorMismatch)
    else if target != BindingId(r.binding) || prior.binding != r.binding then Rejected(ActualPriorMismatch)
    else
      var (format, s) :- ParseBytes(s);
      var (fields, s) :- ParseReceiptTail(s);
      Parsed((head.0, format, fields), s)
  }

  /** The projection, provided it is the result that the record cites. */
  function CitedResult(r: Request, prior: Snapshot, resulting: Option<Digest>): Option<Snapshot> {
    var projected :- Project(r, prior);
    if resulting == Some(projected.identity) then Some(projected) else None
  }

  function RebuildReceipt(r: Request, prior: Snapshot, format: Bytes, f: ReceiptFields): Option<PublicationReceipt> {
    match f.outcome
    case Published =>
      if f.durability != Confirmed || f.atomicity.NoBoundary? then None
      else
        var projected :- CitedResult(r, prior, f.resulting);
        PublishedReceipt(r, prior, projected, format, f.atomicity, f.evidence)
    case StaleExpectedState =>
      if f.durability != NotAttempted || !f.atomicity.NoBoundary? || f.resulting.Some? then None
      else StaleReceipt(r, prior, format, f.evidence)
    case RequestRejected =>
      if f.durability != NotAttempted || !f.atomicity.NoBoundary? || f.resulting.Some? then None
      else RejectedReceipt(r, prior, format, f.evidence)
    case FailedBeforePublication =>
      if f.durability != NotAttempted || !f.atomicity.NoBoundary? || f.resulting.Some? then None
      else FailedReceipt(r, prior, format, f.evidence)
    case PublishedDurabilityUnconfirmed =>
      if f.durability != Unconfirmed || f.atomicity.NoBoundary? then None
      else
        var projected :- CitedResult(r, prior, f.resulting);
        UnconfirmedReceipt(r, prior, projected, format, f.atomicity, f.evidence)
    case Indeterminate =>
      if f.durability != Unknown || f.atomicity.NoBoundary? then None
      else IndeterminateReceipt(r, prior, f.resulting, format, f.atomicity, f.evidence)
  }

  function AdmitReceipt(encoding: Bytes, identity: Digest, made: Option<PublicationReceipt>): Result<PublicationReceipt> {
    if made.None? then Failure(InvalidValue)
    else if PublicationReceiptId(made.value) != identity then Failure(IdentityMismatch)
    else
      var canonical :- EncodeReceipt(made.value);
      if canonical == encoding then Success(made.value) else Failure(InvalidValue)
  }

  function DecodeReceipt(encoding: Bytes, r: Request, prior: Snapshot): Result<PublicationReceipt> {
    var body :- Unseal(encoding, MAXIMUM_RECEIPT);
    match ParseReceiptRecord(r, prior, body)
    case Rejected(fault) => Failure(fault)
    case Parsed(fields, rest) =>
      if rest != [] then Failure(TrailingData)
      else AdmitReceipt(encoding, fields.0, RebuildReceipt(r, prior, fields.1, fields.2))
  }

  function FieldsOf(rc: PublicationReceipt): ReceiptFields {
    ReceiptFields(rc.outcome, rc.durability, rc.atomicity, rc.resulting, rc.evidence)
  }

  lemma {:induction false} EvidenceSize(evidence: seq<Digest>)
    ensures |EncList(DigestEnc(Text), evidence)| == 82 * |evidence|
  {
    hide EncDigest;
    if evidence != [] {
      DigestSize(Text, evidence[0]);
      EvidenceSize(evidence[1..]);
    }
  }

  /** Every evidence item costs 82 bytes, so a receipt within 64 MiB cannot have so
      many that the decoder's count limit refuses it. */
  lemma EvidenceWithinLimit(rc: PublicationReceipt)
    requires |ReceiptPayload(rc)| <= MAXIMUM_RECEIPT
    ensures |rc.evidence| <= MAXIMUM_COUNT
  {
    hide ReceiptHead, ReceiptContext, EncDigest;
    EvidenceSize(rc.evidence);
    assert |ReceiptTail(rc)| <= |ReceiptPayload(rc)|;
  }

  lemma EnumRoundTrip(rc: PublicationReceipt)
    ensures OutcomeOf(rc.outcome.Code()) == Some(rc.outcome)
    ensures DurabilityOf(rc.durability.Code()) == Some(rc.durability)
    ensures AtomicityOf(rc.atomicity.Code()) == Some(rc.atomicity)
  {
  }

  lemma ReceiptTailRoundTrip(rc: PublicationReceipt, more: Bytes)
    requires |rc.evidence| <= MAXIMUM_COUNT
    ensures ParseReceiptTail(ReceiptTail(rc) + more) == Parsed(FieldsOf(rc), more)
  {
    hide EncDigest, ParseDigest, EncOption, ParseOption, EncVector, ParseVector, OutcomeOf, DurabilityOf, AtomicityOf, ParseU8;
    var evidence := EncVector(DigestEnc(Text), rc.evidence) + more;
    var afterAtomicity := EncOption(DigestEnc(Text), rc.resulting) + evidence;
    var afterDurability := [rc.atomicity.Code()] + afterAtomicity;
    var afterOutcome := [rc.durability.Code()] + afterDurability;
    assert ReceiptTail(rc) + more == [rc.outcome.Code()] + afterOutcome;
    U8RoundTrip(rc.outcome.Code(), afterOutcome);
    EnumRoundTrip(rc);
    U8RoundTrip(rc.durability.Code(), afterDurability);
    U8RoundTrip(rc.atomicity.Code(), afterAtomicity);
    if rc.resulting.Some? { DigestInverse(Text, rc.resulting.value); }
    OptionRoundTrip(DigestEnc(Text), DigestParse(Text), rc.resulting, evidence);
    forall d | d in rc.evidence ensures Inverse(DigestEnc(Text), DigestParse(Text), d) && |DigestEnc(Text)(d)| >= 1 {
      DigestInverse(Text, d);
    }
    VectorRoundTrip(DigestEnc(Text), DigestParse(Text), MAXIMUM_COUNT, rc.evidence, more);
  }

  /** A receipt's payload under any identity, followed by anything. */
  function ReceiptImage(rc: PublicationReceipt, identity: Digest, more: Bytes): Bytes {
    RECEIPT_MAGIC + (EncU16(ENCODING_VERSION)
    + (EncDigest(Text, identity) + EncDigest(Text, rc.request) + EncDigest(Text, rc.expected)
       + (ReceiptContext(rc) + (ReceiptTail(rc) + more))))
  }

  lemma ReceiptImageIs(rc: PublicationReceipt)
    ensures ReceiptImage(rc, PublicationReceiptId(rc), []) == ReceiptPayload(rc)
  {
    hide EncU16, EncDigest, ReceiptContext, ReceiptTail, PublicationReceiptId;
    assert ReceiptTail(rc) + [] == ReceiptTail(rc);
  }

  lemma ReceiptFieldsRoundTrip(rc: PublicationReceipt, r: Request, prior: Snapshot, identity: Digest, more: Bytes)
    requires Truthful(rc, r, prior) && Sized(rc.format) && |ReceiptPayload(rc)| <= MAXIMUM_RECEIPT
    ensures ParseReceiptRecord(r, prior, ReceiptImage(rc, identity, more)) == Parsed((identity, rc.format, FieldsOf(rc)), more)
  {
    hide ParsePrefix, ParseThree, EncDigest, ParseDigest, EncBytes, ParseBytes, ReceiptTail, ParseReceiptTail,
         RequestId, BindingId, PublicationReceiptId, Project, EncU16, LineSafeText;
    EvidenceWithinLimit(rc);
    var tail := ReceiptTail(rc) + more;
    var rest := ReceiptContext(rc) + tail;
    PrefixRoundTrip(RECEIPT_MAGIC, EncDigest(Text, identity) + EncDigest(Text, rc.request) + EncDigest(Text, rc.expected) + rest);
    ThreeRoundTrip(identity, rc.request, rc.expected, rest);
    var afterTarget := EncBytes(rc.format) + tail;
    assert rest == EncDigest(Text, rc.actual) + (EncDigest(Text, BindingId(rc.binding)) + afterTarget);
    DigestRoundTrip(Text, rc.actual, EncDigest(Text, BindingId(rc.binding)) + afterTarget);
    DigestRoundTrip(Text, BindingId(rc.binding), afterTarget);
    BytesRoundTrip(rc.format, tail);
    ReceiptTailRoundTrip(rc, more);
  }

  /** Whatever is rebuilt through the factories is truthful, with the format and the
      evidence that were read. */
  lemma RebuildSound(r: Request, prior: Snapshot, format: Bytes, f: ReceiptFields)
    requires RebuildReceipt(r, prior, format, f).Some?
    ensures var rc := RebuildReceipt(r, prior, format, f).value; Truthful(rc, r, prior) && rc.format == format
  {
    hide Project, RequestId, LineSafeText, Normalize, Strict;
    var rc := RebuildReceipt(r, prior, format, f).value;
    ProjectedBinding(r, prior);
    BuiltIsTruthful(rc, r, prior, f.evidence);
  }

  /** Every truthful receipt is rebuilt from its own fields. */
  lemma RebuildComplete(rc: PublicationReceipt, r: Request, prior: Snapshot)
    requires Truthful(rc, r, prior)
    ensures RebuildReceipt(r, prior, rc.format, FieldsOf(rc)) == Some(rc)
  {
    hide Project, RequestId, LineSafeText, Normalize, Strict;
    NormalizeFixes(DigestKey, rc.evidence);
    ProjectedBinding(r, prior);
  }

  lemma RecordFormat(r: Request, prior: Snapshot, body: Bytes)
    ensures ParseReceiptRecord(r, prior, body).Parsed? ==> Sized(ParseReceiptRecord(r, prior, body).value.1)
  {
    hide ParsePrefix, ParseThree, ParseDigest, ParseReceiptTail, RequestId, BindingId;
  }

  /** A receipt record is accepted under a request and a prior state exactly when it
      is the encoding of a receipt that a factory builds for them. */
  lemma ReceiptExact(encoding: Bytes, r: Request, prior: Snapshot, rc: PublicationReceipt)
    ensures DecodeReceipt(encoding, r, prior) == Success(rc)
       <==> BuiltFor(rc, r, prior) && EncodeReceipt(rc) == Success(encoding)
  {
    hide ParseReceiptRecord, RebuildReceipt, ReceiptPayload, PublicationReceiptId, Unseal, Truthful, BuiltFor;
    FactoriesAreTruthful(rc, r, prior);
    SealExact(ReceiptPayload(rc), encoding, MAXIMUM_RECEIPT);
    if DecodeReceipt(encoding, r, prior) == Success(rc) {
      var body := Unseal(encoding, MAXIMUM_RECEIPT).value;
      var fields := ParseReceiptRecord(r, prior, body).value;
      RecordFormat(r, prior, body);
      RebuildSound(r, prior, fields.1, fields.2);
    }
    if BuiltFor(rc, r, prior) && EncodeReceipt(rc) == Success(encoding) {
      ReceiptImageIs(rc);
      ReceiptFieldsRoundTrip(rc, r, prior, PublicationReceiptId(rc), []);
      RebuildComplete(rc, r, prior);
    }
  }

  /** A properly sealed record is refused, each time in its own category: for bytes after
      the receipt, for an identity that is not the receipt's, and for a prefix that is
      not this format's. */
  lemma ReceiptRefusals(rc: PublicationReceipt, r: Request, prior: Snapshot, identity: Digest, more: Bytes)
    requires Truthful(rc, r, prior) && Sized(rc.format) && |ReceiptPayload(rc)| <= MAXIMUM_RECEIPT
    requires |ReceiptImage(rc, identity, more)| + CHECKSUM_SIZE <= MAXIMUM_RECEIPT
    ensures var sealed := ReceiptImage(rc, identity, more) + SHA256(ReceiptImage(rc, identity, more));
            && (more != [] ==> DecodeReceipt(sealed, r, prior) == Failure(TrailingData))
            && (more == [] && identity != PublicationReceiptId(rc) ==> DecodeReceipt(sealed, r, prior) == Failure(IdentityMismatch))
  {
    hide ParseReceiptRecord, RebuildReceipt, ReceiptPayload, ReceiptImage, PublicationReceiptId, Unseal, Truthful;
    var body := ReceiptImage(rc, identity, more);
    SealExact(body, body + SHA256(body), MAXIMUM_RECEIPT);
    ReceiptFieldsRoundTrip(rc, r, prior, identity, more);
    RebuildComplete(rc, r, prior);
  }

  lemma ReceiptPrefixRefused(body: Bytes, r: Request, prior: Snapshot)
    requires |body| + CHECKSUM_SIZE <= MAXIMUM_RECEIPT
    ensures var answer := DecodeReceipt(body + SHA256(body), r, prior);
            && (!(RECEIPT_MAGIC <= body) ==> answer == Failure(InvalidMagic))
            && (RECEIPT_MAGIC <= body && |body| < 10 ==> answer == Failure(Truncated))
            && (RECEIPT_MAGIC <= body && |body| >= 10 && body[8..10] != [0, 1] ==> answer == Failure(UnsupportedVersion))
  {
    hide ParsePrefix, ParseThree, ParseReceiptTail, ParseDigest, ParseBytes, BindingId, RequestId, Unseal;
    SealExact(body, body + SHA256(body), MAXIMUM_RECEIPT);
    PrefixExact(RECEIPT_MAGIC, body);
  }

  /** A receipt record is refused under another request or another prior state. */
  lemma ForeignContextRefused(encoding: Bytes, rc: PublicationReceipt, r: Request, prior: Snapshot)
    requires EncodeReceipt(rc) == Success(encoding)
    ensures rc.request != RequestId(r) ==> DecodeReceipt(encoding, r, prior) == Failure(RequestMismatch)
    ensures (rc.request == RequestId(r) && rc.expected == r.expected && rc.actual != prior.identity) ==>
              DecodeReceipt(encoding, r, prior) == Failure(ActualPriorMismatch)
  {
    hide ParsePrefix, ParseThree, EncDigest, ParseDigest, EncBytes, ReceiptTail, RequestId, BindingId,
         PublicationReceiptId, Unseal, EncU16, Project;
    SealExact(ReceiptPayload(rc), encoding, MAXIMUM_RECEIPT);
    var rest := ReceiptContext(rc) + ReceiptTail(rc);
    PrefixRoundTrip(RECEIPT_MAGIC, ReceiptHead(rc) + rest);
    ThreeRoundTrip(PublicationReceiptId(rc), rc.request, rc.expected, rest);
    var afterTarget := EncBytes(rc.format) + ReceiptTail(rc);
    assert rest == EncDigest(Text, rc.actual) + (EncDigest(Text, BindingId(rc.binding)) + afterTarget);
    DigestRoundTrip(Text, rc.actual, EncDigest(Text, BindingId(rc.binding)) + afterTarget);
    DigestRoundTrip(Text, BindingId(rc.binding), afterTarget);
  }
}
