/** The identities of publication requests and receipts: the records they hash and
    what two values with one identity have in common. */
module PublicationIdentities {
  import opened Core
  import opened Wire
  import opened CanonicalRecord
  import opened Model
  import opened SourceCodec
  import opened ReceiptCodec
  import opened Snapshots
  import opened Identities
  import opened Streams
  import opened ReceiptStreams
  import opened Requests
  import opened Receipts
  import PC = PublicationCodec

  // ---- building the records --------------------------------------------------------

  method RecordDelta(record: ByteSink, d: Delta)
    requires record.form == Record
    modifies record
    ensures record.bytes == old(record.bytes) + EncDeltaRecord(d)
  {
    hide EncBytes, EncDigest, EncOption;
    record.U8(d.Code());
    record.Bytes(d.Name());
    record.Digest(d.plan);
    record.Digest(d.evidence);
    record.OptionalDigest(d.Expected());
    RecordProposal(record, d.Proposed());
  }

  method RecordProposal(record: ByteSink, proposed: Option<Package>)
    requires record.form == Record
    modifies record
    ensures record.bytes == old(record.bytes) + EncOption(EncPackageRef, proposed)
  {
    hide EncDigest, PackageId;
    record.Boolean(proposed.Some?);
    if proposed.Some? {
      var id := IdentifyPackage(proposed.value);
      record.Digest(id);
    }
  }

  method RecordDeltas(record: ByteSink, deltas: seq<Delta>)
    requires record.form == Record
    modifies record
    ensures record.bytes == old(record.bytes) + EncVector(EncDeltaRecord, deltas)
  {
    hide EncDeltaRecord, EncU64;
    record.U64(|deltas|);
    ghost var start := record.bytes;
    for i := 0 to |deltas|
      invariant record.bytes == start + EncList(EncDeltaRecord, deltas[..i])
    {
      EncListStep(EncDeltaRecord, deltas, i);
      RecordDelta(record, deltas[i]);
    }
    assert deltas[..|deltas|] == deltas;
  }

  method IdentifyRequest(r: Request) returns (id: Digest)
    ensures id == RequestId(r)
  {
    hide EncU16, EncDigest, EncVector, EncOption, Header, BindingId;
    var record := new ByteSink.CanonicalRecord(Domain.PublicationRequest);
    record.U16(SCHEMA);
    record.Digest(r.expected);
    var target := IdentifyBinding(r.binding);
    record.Digest(target);
    RecordDeltas(record, r.deltas);
    record.OptionalDigest(r.transaction);
    assert record.bytes == Header(Domain.PublicationRequest) + RequestBody(r);
    id := SHA256(record.bytes);
  }

  method RecordOutcome(record: ByteSink, rc: PublicationReceipt)
    requires record.form == Record
    modifies record
    ensures record.bytes == old(record.bytes) + OutcomeRecord(rc)
  {
    hide EncDigest, EncVector, EncOption;
    record.U8(rc.outcome.Code());
    record.U8(rc.durability.Code());
    record.U8(rc.atomicity.Code());
    record.OptionalDigest(rc.resulting);
    record.Digests(rc.evidence);
  }

  method IdentifyPublicationReceipt(rc: PublicationReceipt) returns (id: Digest)
    ensures id == PublicationReceiptId(rc)
  {
    hide EncU16, EncDigest, EncBytes, OutcomeRecord, Header, BindingId, PublicationReceiptBody;
    var record := new ByteSink.CanonicalRecord(Domain.PublicationReceipt);
    record.U16(SCHEMA);
    record.Digest(rc.request);
    record.Digest(rc.expected);
    record.Digest(rc.actual);
    var target := IdentifyBinding(rc.binding);
    record.Digest(target);
    record.Bytes(rc.format);
    RecordOutcome(record, rc);
    ReceiptBodyParts(rc);
    assert record.bytes == Header(Domain.PublicationReceipt) + PublicationReceiptBody(rc);
    id := SHA256(record.bytes);
  }

  // ---- one domain for each kind -----------------------------------------------------------

  /** Each of the nine kinds of identity is taken in its own domain. */
  lemma OwnDomains(b: Binding, x: Source, c: Control, i: Receipt, p: Package, groups: seq<Group>, s: Snapshot,
                   r: Request, rc: PublicationReceipt)
    ensures && BindingId(b) == SHA256(Preimage(TargetBinding, EncBinding(Record, b)))
            && SourceId(x) == SHA256(Preimage(PackageSourceRecord, EncSource(Record, x)))
            && ControlId(c) == SHA256(Preimage(InstalledControl, ControlBody(c)))
            && ReceiptId(i) == SHA256(Preimage(InstallationReceipt, ReceiptBody(i)))
            && PackageId(p) == SHA256(Preimage(InstalledPackage, PackageBody(p)))
            && OwnershipId(groups) == SHA256(Preimage(OwnershipInventory, EncVector(EncGroup, groups)))
            && SnapshotId(s.binding, s.packages, s.ownership) == SHA256(Preimage(InstalledSnapshot, SnapshotContent(s)))
            && RequestId(r) == SHA256(Preimage(Domain.PublicationRequest, RequestBody(r)))
            && PublicationReceiptId(rc) == SHA256(Preimage(Domain.PublicationReceipt, PublicationReceiptBody(rc)))
  {
    hide Preimage, EncBinding, EncSource, ControlBody, ReceiptBody, PackageBody, EncVector, SnapshotBody, RequestBody,
         PublicationReceiptBody;
    hide EncDigest;
    assert PackageBody(p) == EncDigest(Record, ReceiptId(p.receipt)) by { PackageBodyIs(p); }
  }

  lemma PackageBodyIs(p: Package)
    ensures PackageBody(p) == EncDigest(Record, ReceiptId(p.receipt))
  {
    hide EncDigest, ReceiptId;
  }

  /** Identities of different kinds coincide only in a collision. */
  lemma KindsSeparate(d: Domain, a: Bytes, e: Domain, b: Bytes)
    requires d != e && SHA256(Preimage(d, a)) == SHA256(Preimage(e, b))
    ensures Collision(Preimage(d, a), Preimage(e, b))
  {
    hide Preimage;
    if Preimage(d, a) == Preimage(e, b) { PreimageInjective(d, a, e, b); }
  }

  // ---- reading a delta's record back ---------------------------------------------------

  /** What the request's record keeps of a delta: the proposed package by identity. */
  datatype Reference = Reference(code: Byte, name: Bytes, plan: Digest, evidence: Digest,
                                 expected: Option<Digest>, proposed: Option<Digest>)

  function ReferenceTo(d: Delta): Reference {
    Reference(d.Code(), d.Name(), d.plan, d.evidence, d.Expected(),
              if d.Remove? then None else Some(PackageId(d.proposed)))
  }

  function ParseReference(s: Bytes): Parsed<Reference> {
    var (code, s) :- ParseU8(s);
    var (name, s) :- ParseBytes(s);
    var (plan, s) :- ParseDigest(Record, s);
    var (evidence, s) :- ParseDigest(Record, s);
    var (expected, s) :- ParseOption(DigestParse(Record), s);
    var (proposed, s) :- ParseOption(DigestParse(Record), s);
    Parsed(Reference(code, name, plan, evidence, expected, proposed), s)
  }

  lemma ReferenceRoundTrip(d: Delta, rest: Bytes)
    requires Sized(d.Name())
    ensures ParseReference(EncDeltaRecord(d) + rest) == Parsed(ReferenceTo(d), rest)
  {
    hide EncBytes, ParseBytes, EncDigest, ParseDigest, ParseOption, PackageId;
    var x := ReferenceTo(d);
    assert EncOption(EncPackageRef, d.Proposed()) == EncOption(DigestEnc(Record), x.proposed);
    hide EncOption;
    var afterExpected := EncOption(DigestEnc(Record), x.proposed) + rest;
    var afterEvidence := EncOption(DigestEnc(Record), x.expected) + afterExpected;
    var afterPlan := EncDigest(Record, d.evidence) + afterEvidence;
    var afterName := EncDigest(Record, d.plan) + afterPlan;
    assert EncDeltaRecord(d) + rest == [d.Code()] + (EncBytes(d.Name()) + afterName);
    U8RoundTrip(d.Code(), EncBytes(d.Name()) + afterName);
    BytesRoundTrip(d.Name(), afterName);
    DigestRoundTrip(Record, d.plan, afterPlan);
    DigestRoundTrip(Record, d.evidence, afterEvidence);
    OptionalDigestRoundTrip(x.expected, afterExpected);
    OptionalDigestRoundTrip(x.proposed, rest);
  }

  lemma OptionalDigestRoundTrip(o: Option<Digest>, rest: Bytes)
    ensures ParseOption(DigestParse(Record), EncOption(DigestEnc(Record), o) + rest) == Parsed(o, rest)
  {
    if o.Some? { DigestInverse(Record, o.value); }
    OptionRoundTrip(DigestEnc(Record), DigestParse(Record), o, rest);
  }

  /** A list of delta records followed by anything fixes the references and what
      follows. */
  lemma {:induction false} ReferencesInjective(a: seq<Delta>, b: seq<Delta>, s: Bytes, t: Bytes)
    requires |a| == |b| && EncList(EncDeltaRecord, a) + s == EncList(EncDeltaRecord, b) + t
    requires forall d :: d in a || d in b ==> Sized(d.Name())
    ensures s == t && forall i :: 0 <= i < |a| ==> ReferenceTo(a[i]) == ReferenceTo(b[i])
  {
    hide EncDeltaRecord, ReferenceTo, ParseReference;
    if a == [] {
      assert s == EncList(EncDeltaRecord, a) + s && t == EncList(EncDeltaRecord, b) + t;
    } else {
      var moreA, moreB := EncList(EncDeltaRecord, a[1..]) + s, EncList(EncDeltaRecord, b[1..]) + t;
      assert EncDeltaRecord(a[0]) + moreA == EncList(EncDeltaRecord, a) + s;
      assert EncDeltaRecord(b[0]) + moreB == EncList(EncDeltaRecord, b) + t;
      ReferenceRoundTrip(a[0], moreA);
      ReferenceRoundTrip(b[0], moreB);
      ReferencesInjective(a[1..], b[1..], s, t);
      forall i | 0 < i < |a| ensures ReferenceTo(a[i]) == ReferenceTo(b[i]) {
        assert a[i] == a[1..][i - 1] && b[i] == b[1..][i - 1];
      }
    }
  }

  // ---- requests --------------------------------------------------------------------------

  /** The deltas come from their factories, and their number fits in a u64. */
  ghost predicate Recordable(r: Request) { Sized(r.deltas) && ValidDeltas(r.deltas) }

  lemma NamesFit(deltas: seq<Delta>)
    requires ValidDeltas(deltas)
    ensures forall d :: d in deltas ==> Sized(d.Name())
  {
    forall d | d in deltas ensures Sized(d.Name()) { assert ValidDelta(d); }
  }

  lemma RequestBodyParts(r: Request)
    ensures |RequestBody(r)| >= 2
    ensures RequestBody(r)[2..] == EncDigest(Record, r.expected) + (EncDigest(Record, BindingId(r.binding))
              + (EncU64(|r.deltas|) + (EncList(EncDeltaRecord, r.deltas) + EncOption(DigestEnc(Record), r.transaction))))
  {
    hide EncDigest, EncDeltaRecord, BindingId, EncU64, EncOption;
  }

  lemma RequestBodyInjective(a: Request, b: Request)
    requires Recordable(a) && Recordable(b) && RequestBody(a) == RequestBody(b)
    ensures a.expected == b.expected && BindingId(a.binding) == BindingId(b.binding) && a.transaction == b.transaction
    ensures |a.deltas| == |b.deltas| && forall i :: 0 <= i < |a.deltas| ==> ReferenceTo(a.deltas[i]) == ReferenceTo(b.deltas[i])
  {
    hide EncDigest, ParseDigest, EncDeltaRecord, ReferenceTo, BindingId, EncU64, ParseU64, EncOption, ParseOption, RequestBody, ValidDelta;
    RequestBodyParts(a);
    RequestBodyParts(b);
    NamesFit(a.deltas);
    NamesFit(b.deltas);
    var tailA, tailB := EncOption(DigestEnc(Record), a.transaction), EncOption(DigestEnc(Record), b.transaction);
    var listA, listB := EncList(EncDeltaRecord, a.deltas) + tailA, EncList(EncDeltaRecord, b.deltas) + tailB;
    var countA, countB := EncU64(|a.deltas|) + listA, EncU64(|b.deltas|) + listB;
    DigestRoundTrip(Record, a.expected, EncDigest(Record, BindingId(a.binding)) + countA);
    DigestRoundTrip(Record, b.expected, EncDigest(Record, BindingId(b.binding)) + countB);
    DigestRoundTrip(Record, BindingId(a.binding), countA);
    DigestRoundTrip(Record, BindingId(b.binding), countB);
    U64RoundTrip(|a.deltas|, listA);
    U64RoundTrip(|b.deltas|, listB);
    ReferencesInjective(a.deltas, b.deltas, tailA, tailB);
    assert tailA + [] == tailA && tailB + [] == tailB;
    OptionalDigestRoundTrip(a.transaction, []);
    OptionalDigestRoundTrip(b.transaction, []);
  }

  /** The first proposed packages in which two lists of deltas differ. */
  function DeltasPair(a: seq<Delta>, b: seq<Delta>): (Bytes, Bytes) {
    if a == [] || b == [] then ([], [])
    else if a[0] != b[0] && !a[0].Remove? && !b[0].Remove? then PackagePair(a[0].proposed, b[0].proposed)
    else DeltasPair(a[1..], b[1..])
  }

  function RequestPair(a: Request, b: Request): (Bytes, Bytes) {
    if RequestBody(a) != RequestBody(b) then
      (Preimage(Domain.PublicationRequest, RequestBody(a)), Preimage(Domain.PublicationRequest, RequestBody(b)))
    else if a.binding != b.binding then BindingPair(a.binding, b.binding)
    else DeltasPair(a.deltas, b.deltas)
  }

  lemma {:induction false} DeltasBind(a: seq<Delta>, b: seq<Delta>)
    requires |a| == |b| && a != b && ValidDeltas(a) && ValidDeltas(b)
    requires forall i :: 0 <= i < |a| ==> ReferenceTo(a[i]) == ReferenceTo(b[i])
    ensures Colliding(DeltasPair(a, b))
  {
    hide PackagePair, PackageId, ValidPackage, EvidenceMatches;
    if a[0] != b[0] {
      assert ValidDelta(a[0]) && ValidDelta(b[0]);
      PackageBinds(a[0].proposed, b[0].proposed);
    } else {
      assert a == [a[0]] + a[1..] && b == [b[0]] + b[1..];
      forall i | 0 <= i < |a| - 1 ensures ReferenceTo(a[1..][i]) == ReferenceTo(b[1..][i]) {
        assert a[1..][i] == a[i + 1] && b[1..][i] == b[i + 1];
      }
      DeltasBind(a[1..], b[1..]);
    }
  }

  /** Requests with one identity are equal down to the contents of the packages they
      propose, or a collision is exhibited. */
  lemma RequestBinds(a: Request, b: Request)
    requires Recordable(a) && Recordable(b) && RequestId(a) == RequestId(b) && a != b
    ensures Colliding(RequestPair(a, b))
  {
    hide RequestBody, ReferenceTo, BindingId, BindingPair, DeltasPair, Identify, ValidDelta;
    if RequestBody(a) == RequestBody(b) {
      RequestBodyInjective(a, b);
      if a.binding != b.binding {
        BindingBinds(a.binding, b.binding);
      } else {
        DeltasBind(a.deltas, b.deltas);
      }
    } else {
      assert Identify(Domain.PublicationRequest, RequestBody(a)) == Identify(Domain.PublicationRequest, RequestBody(b));
      DifferentBodies(Domain.PublicationRequest, RequestBody(a), RequestBody(b));
    }
  }

  // ---- receipts ------------------------------------------------------------------------------

  function OutcomeRecord(rc: PublicationReceipt): Bytes {
    [rc.outcome.Code()] + [rc.durability.Code()] + [rc.atomicity.Code()]
    + EncOption(DigestEnc(Record), rc.resulting) + EncVector(DigestEnc(Record), rc.evidence)
  }

  lemma ReceiptBodyParts(rc: PublicationReceipt)
    ensures |PublicationReceiptBody(rc)| >= 2
    ensures PublicationReceiptBody(rc) == EncU16(SCHEMA) + EncDigest(Record, rc.request) + EncDigest(Record, rc.expected)
              + EncDigest(Record, rc.actual) + EncDigest(Record, BindingId(rc.binding)) + EncBytes(rc.format) + OutcomeRecord(rc)
    ensures PublicationReceiptBody(rc)[2..] == EncDigest(Record, rc.request) + (EncDigest(Record, rc.expected)
              + (EncDigest(Record, rc.actual) + (EncDigest(Record, BindingId(rc.binding)) + (EncBytes(rc.format) + OutcomeRecord(rc)))))
  {
    hide EncDigest, EncBytes, BindingId, EncOption, EncVector;
  }

  lemma OutcomeInjective(a: PublicationReceipt, b: PublicationReceipt)
    requires Sized(a.evidence) && Sized(b.evidence) && OutcomeRecord(a) == OutcomeRecord(b)
    ensures a.outcome == b.outcome && a.durability == b.durability && a.atomicity == b.atomicity
    ensures a.resulting == b.resulting && a.evidence == b.evidence
  {
    hide EncDigest, ParseDigest, EncOption, ParseOption, EncVector, ParseVector, PC.OutcomeOf, PC.DurabilityOf, PC.AtomicityOf;
    var vectorA, vectorB := EncVector(DigestEnc(Record), a.evidence), EncVector(DigestEnc(Record), b.evidence);
    var restA, restB := EncOption(DigestEnc(Record), a.resulting) + vectorA, EncOption(DigestEnc(Record), b.resulting) + vectorB;
    assert OutcomeRecord(a) == [a.outcome.Code(), a.durability.Code(), a.atomicity.Code()] + restA;
    assert OutcomeRecord(b) == [b.outcome.Code(), b.durability.Code(), b.atomicity.Code()] + restB;
    assert OutcomeRecord(a)[0] == OutcomeRecord(b)[0] && OutcomeRecord(a)[1] == OutcomeRecord(b)[1]
        && OutcomeRecord(a)[2] == OutcomeRecord(b)[2] && OutcomeRecord(a)[3..] == restA && OutcomeRecord(b)[3..] == restB;
    PC.EnumRoundTrip(a);
    PC.EnumRoundTrip(b);
    OptionalDigestRoundTrip(a.resulting, vectorA);
    OptionalDigestRoundTrip(b.resulting, vectorB);
    assert vectorA + [] == vectorA && vectorB + [] == vectorB;
    forall d: Digest ensures Inverse(DigestEnc(Record), DigestParse(Record), d) && |DigestEnc(Record)(d)| >= 1 {
      DigestInverse(Record, d);
    }
    VectorRoundTrip(DigestEnc(Record), DigestParse(Record), NO_LIMIT, a.evidence, []);
    VectorRoundTrip(DigestEnc(Record), DigestParse(Record), NO_LIMIT, b.evidence, []);
  }

  lemma PublicationReceiptBodyInjective(a: PublicationReceipt, b: PublicationReceipt)
    requires Sized(a.format) && Sized(b.format) && Sized(a.evidence) && Sized(b.evidence)
    requires PublicationReceiptBody(a) == PublicationReceiptBody(b)
    ensures BindingId(a.binding) == BindingId(b.binding) && a == b.(binding := a.binding)
  {
    hide EncDigest, ParseDigest, EncBytes, ParseBytes, BindingId, OutcomeRecord, PublicationReceiptBody;
    ReceiptBodyParts(a);
    ReceiptBodyParts(b);
    var formatA, formatB := EncBytes(a.format) + OutcomeRecord(a), EncBytes(b.format) + OutcomeRecord(b);
    var targetA, targetB := EncDigest(Record, BindingId(a.binding)) + formatA, EncDigest(Record, BindingId(b.binding)) + formatB;
    var actualA, actualB := EncDigest(Record, a.actual) + targetA, EncDigest(Record, b.actual) + targetB;
    var expectedA, expectedB := EncDigest(Record, a.expected) + actualA, EncDigest(Record, b.expected) + actualB;
    DigestRoundTrip(Record, a.request, expectedA);
    DigestRoundTrip(Record, b.request, expectedB);
    DigestRoundTrip(Record, a.expected, actualA);
    DigestRoundTrip(Record, b.expected, actualB);
    DigestRoundTrip(Record, a.actual, targetA);
    DigestRoundTrip(Record, b.actual, targetB);
    DigestRoundTrip(Record, BindingId(a.binding), formatA);
    DigestRoundTrip(Record, BindingId(b.binding), formatB);
    BytesRoundTrip(a.format, OutcomeRecord(a));
    BytesRoundTrip(b.format, OutcomeRecord(b));
    OutcomeInjective(a, b);
  }

  function PublicationReceiptPair(a: PublicationReceipt, b: PublicationReceipt): (Bytes, Bytes) {
    if PublicationReceiptBody(a) != PublicationReceiptBody(b) then
      (Preimage(Domain.PublicationReceipt, PublicationReceiptBody(a)), Preimage(Domain.PublicationReceipt, PublicationReceiptBody(b)))
    else BindingPair(a.binding, b.binding)
  }

  /** Publication receipts with one identity are equal, or a collision is exhibited. */
  lemma PublicationReceiptBinds(a: PublicationReceipt, b: PublicationReceipt)
    requires Sized(a.format) && Sized(b.format) && Sized(a.evidence) && Sized(b.evidence)
    requires PublicationReceiptId(a) == PublicationReceiptId(b) && a != b
    ensures Colliding(PublicationReceiptPair(a, b))
  {
    hide PublicationReceiptBody, BindingId, BindingPair, Identify;
    if PublicationReceiptBody(a) == PublicationReceiptBody(b) {
      PublicationReceiptBodyInjective(a, b);
      BindingBinds(a.binding, b.binding);
    } else {
      DifferentBodies(Domain.PublicationReceipt, PublicationReceiptBody(a), PublicationReceiptBody(b));
    }
  }
}
