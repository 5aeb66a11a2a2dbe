/** Publication receipts and the six factories that alone build them. */
module Receipts {
  import opened Core
  import opened Order
  import opened Wire
  import opened Model
  import CanonicalRecord
  import opened ReceiptCodec
  import opened Snapshots
  import opened Requests

  datatype PublicationOutcome =
    | Published
    | StaleExpectedState
    | RequestRejected
    | FailedBeforePublication
    | PublishedDurabilityUnconfirmed
    | Indeterminate
  {
    function Code(): Byte {
      match this
      case Published => 1
      case StaleExpectedState => 2
      case RequestRejected => 3
      case FailedBeforePublication => 4
      case PublishedDurabilityUnconfirmed => 5
      case Indeterminate => 6
    }

    /** The durability knowledge that goes with each outcome. */
    function Durability(): Durability {
      match this
      case Published => Confirmed
      case StaleExpectedState => NotAttempted
      case RequestRejected => NotAttempted
      case FailedBeforePublication => NotAttempted
      case PublishedDurabilityUnconfirmed => Unconfirmed
      case Indeterminate => Unknown
    }
  }

  datatype Durability = NotAttempted | Confirmed | Unconfirmed | Unknown {
    function Code(): Byte {
      match this
      case NotAttempted => 1
      case Confirmed => 2
      case Unconfirmed => 3
      case Unknown => 4
    }
  }

  datatype Atomicity = NoBoundary | CompleteStateObjectReplace | ImmutableGenerationSelection {
    function Code(): Byte {
      match this
      case NoBoundary => 1
      case CompleteStateObjectReplace => 2
      case ImmutableGenerationSelection => 3
    }
  }

  datatype PublicationReceipt = PublicationReceipt(
    request: Digest, expected: Digest, actual: Digest, binding: Binding, format: Bytes,
    outcome: PublicationOutcome, durability: Durability, atomicity: Atomicity,
    resulting: Option<Digest>, evidence: seq<Digest>)

  function MakePublicationReceipt(r: Request, prior: Snapshot, format: Bytes, outcome: PublicationOutcome,
                                  atomicity: Atomicity, resulting: Option<Digest>, evidence: seq<Digest>)
    : Option<PublicationReceipt>
  {
    if !LineSafeText(format) then None
    else
      var sorted :- Normalize(DigestKey, evidence);
      Some(PublicationReceipt(RequestId(r), r.expected, prior.identity, r.binding, format, outcome,
                              outcome.Durability(), atomicity, resulting, sorted))
  }

  predicate IsCurrent(r: Request, prior: Snapshot) { prior.binding == r.binding && prior.identity == r.expected }

  predicate IsStale(r: Request, prior: Snapshot) { prior.binding == r.binding && prior.identity != r.expected }

  /** A cited result must be the projection of the request on the prior state. */
  function ValidateResult(r: Request, prior: Snapshot, result: Snapshot): Option<Digest> {
    if result.binding != r.binding then None
    else
      var projected :- Project(r, prior);
      if result.identity != projected.identity then None else Some(result.identity)
  }

  // ---- the factories ----------------------------------------------------------------

  function PublishedReceipt(r: Request, prior: Snapshot, result: Snapshot, format: Bytes,
                            atomicity: Atomicity, evidence: seq<Digest>): Option<PublicationReceipt>
  {
    if !IsCurrent(r, prior) || atomicity.NoBoundary? then None
    else
      var resulting :- ValidateResult(r, prior, result);
      MakePublicationReceipt(r, prior, format, Published, atomicity, Some(resulting), evidence)
  }

  function StaleReceipt(r: Request, prior: Snapshot, format: Bytes, evidence: seq<Digest>): Option<PublicationReceipt> {
    if !IsStale(r, prior) then None
    else MakePublicationReceipt(r, prior, format, StaleExpectedState, NoBoundary, None, evidence)
  }

  function RejectedReceipt(r: Request, prior: Snapshot, format: Bytes, evidence: seq<Digest>): Option<PublicationReceipt> {
    if !IsCurrent(r, prior) then None
    else MakePublicationReceipt(r, prior, format, RequestRejected, NoBoundary, None, evidence)
  }

  function FailedReceipt(r: Request, prior: Snapshot, format: Bytes, evidence: seq<Digest>): Option<PublicationReceipt> {
    if !IsCurrent(r, prior) then None
    else MakePublicationReceipt(r, prior, format, FailedBeforePublication, NoBoundary, None, evidence)
  }

  function UnconfirmedReceipt(r: Request, prior: Snapshot, result: Snapshot, format: Bytes,
                              atomicity: Atomicity, evidence: seq<Digest>): Option<PublicationReceipt>
  {
    if !IsCurrent(r, prior) || atomicity.NoBoundary? then None
    else
      var resulting :- ValidateResult(r, prior, result);
      MakePublicationReceipt(r, prior, format, PublishedDurabilityUnconfirmed, atomicity, Some(resulting), evidence)
  }

  function IndeterminateReceipt(r: Request, prior: Snapshot, resulting: Option<Digest>, format: Bytes,
                                atomicity: Atomicity, evidence: seq<Digest>): Option<PublicationReceipt>
  {
    if !IsCurrent(r, prior) || atomicity.NoBoundary? then None
    else if resulting.Some? && (Project(r, prior).None? || resulting.value != Project(r, prior).value.identity) then None
    else MakePublicationReceipt(r, prior, format, Indeterminate, atomicity, resulting, evidence)
  }

  /** Some factory, given some list of evidence, builds the receipt for this request
      and this prior state. */
  ghost predicate BuiltFor(rc: PublicationReceipt, r: Request, prior: Snapshot) {
    && Sized(rc.format)
    && exists evidence :: BuiltWith(rc, r, prior, evidence)
  }

  ghost predicate BuiltWith(rc: PublicationReceipt, r: Request, prior: Snapshot, evidence: seq<Digest>) {
    match rc.outcome
    case Published => exists result :: PublishedReceipt(r, prior, result, rc.format, rc.atomicity, evidence) == Some(rc)
    case StaleExpectedState => StaleReceipt(r, prior, rc.format, evidence) == Some(rc)
    case RequestRejected => RejectedReceipt(r, prior, rc.format, evidence) == Some(rc)
    case FailedBeforePublication => FailedReceipt(r, prior, rc.format, evidence) == Some(rc)
    case PublishedDurabilityUnconfirmed =>
      exists result :: UnconfirmedReceipt(r, prior, result, rc.format, rc.atomicity, evidence) == Some(rc)
    case Indeterminate => IndeterminateReceipt(r, prior, rc.resulting, rc.format, rc.atomicity, evidence) == Some(rc)
  }

  /** What a receipt says, whichever factory built it. */
  ghost predicate Truthful(rc: PublicationReceipt, r: Request, prior: Snapshot) {
    && prior.binding == r.binding == rc.binding
    && rc.request == RequestId(r) && rc.expected == r.expected && rc.actual == prior.identity
    && LineSafeText(rc.format)
    && Strict(DigestKey, rc.evidence)
    && rc.durability == rc.outcome.Durability()
    && (rc.outcome.StaleExpectedState? <==> prior.identity != r.expected)
    && (rc.atomicity.NoBoundary? <==> rc.outcome.StaleExpectedState? || rc.outcome.RequestRejected? || rc.outcome.FailedBeforePublication?)
    && (rc.outcome.Published? || rc.outcome.PublishedDurabilityUnconfirmed? ==> rc.resulting.Some?)
    && (rc.atomicity.NoBoundary? ==> rc.resulting.None?)
    && (rc.resulting.Some? ==> Project(r, prior).Some? && rc.resulting.value == Project(r, prior).value.identity)
  }

  /** The factories build exactly the truthful receipts: a cited result is always
      the projection of the request on the prior state. */
  lemma FactoriesAreTruthful(rc: PublicationReceipt, r: Request, prior: Snapshot)
    ensures BuiltFor(rc, r, prior) <==> Truthful(rc, r, prior) && Sized(rc.format)
  {
    hide BuiltWith, Truthful;
    if BuiltFor(rc, r, prior) {
      var evidence :| BuiltWith(rc, r, prior, evidence);
      BuiltIsTruthful(rc, r, prior, evidence);
    }
    if Truthful(rc, r, prior) { TruthfulIsBuilt(rc, r, prior); }
  }

  lemma BuiltIsTruthful(rc: PublicationReceipt, r: Request, prior: Snapshot, evidence: seq<Digest>)
    requires BuiltWith(rc, r, prior, evidence)
    ensures Truthful(rc, r, prior)
  {
    hide Project, RequestId, LineSafeText, Normalize, Strict;
    NormalizeMeans(DigestKey, evidence);
  }

  lemma TruthfulIsBuilt(rc: PublicationReceipt, r: Request, prior: Snapshot)
    requires Truthful(rc, r, prior)
    ensures BuiltWith(rc, r, prior, rc.evidence)
  {
    hide Project, RequestId, LineSafeText, Normalize, Strict;
    NormalizeFixes(DigestKey, rc.evidence);
    if rc.resulting.Some? {
      var result := Project(r, prior).value;
      ProjectedBinding(r, prior);
      assert ValidateResult(r, prior, result) == rc.resulting;
      if rc.outcome.Published? {
        assert PublishedReceipt(r, prior, result, rc.format, rc.atomicity, rc.evidence) == Some(rc);
      }
      if rc.outcome.PublishedDurabilityUnconfirmed? {
        assert UnconfirmedReceipt(r, prior, result, rc.format, rc.atomicity, rc.evidence) == Some(rc);
      }
    }
  }

  /** Each list of evidence is retained in identity order, whichever factory was called
      with it, and a repetition is refused. */
  lemma EvidenceRetained(rc: PublicationReceipt, r: Request, prior: Snapshot, evidence: seq<Digest>)
    ensures BuiltWith(rc, r, prior, evidence) <==> Truthful(rc, r, prior) && multiset(rc.evidence) == multiset(evidence)
  {
    hide BuiltWith, Truthful;
    if BuiltWith(rc, r, prior, evidence) {
      BuiltIsTruthful(rc, r, prior, evidence);
      BuiltRetains(rc, r, prior, evidence);
    }
    if Truthful(rc, r, prior) && multiset(rc.evidence) == multiset(evidence) {
      TruthfulIsBuilt(rc, r, prior);
      BuiltFromEither(rc, r, prior, rc.evidence, evidence);
    }
  }

  lemma BuiltRetains(rc: PublicationReceipt, r: Request, prior: Snapshot, evidence: seq<Digest>)
    requires BuiltWith(rc, r, prior, evidence)
    ensures multiset(rc.evidence) == multiset(evidence)
  {
    hide Project, RequestId, LineSafeText, Normalize, Strict;
    NormalizeMeans(DigestKey, evidence);
  }

  lemma BuiltFromEither(rc: PublicationReceipt, r: Request, prior: Snapshot, a: seq<Digest>, b: seq<Digest>)
    requires BuiltWith(rc, r, prior, a) && multiset(a) == multiset(b)
    ensures BuiltWith(rc, r, prior, b)
  {
    hide Project, RequestId, LineSafeText, Normalize, Strict;
    NormalizeIgnoresOrder(DigestKey, a, b);
    match rc.outcome
    case Published =>
      var result :| PublishedReceipt(r, prior, result, rc.format, rc.atomicity, a) == Some(rc);
      assert PublishedReceipt(r, prior, result, rc.format, rc.atomicity, b) == Some(rc);
    case PublishedDurabilityUnconfirmed =>
      var result :| UnconfirmedReceipt(r, prior, result, rc.format, rc.atomicity, a) == Some(rc);
      assert UnconfirmedReceipt(r, prior, result, rc.format, rc.atomicity, b) == Some(rc);
    case _ =>
  }

  /** A factory that is handed a result demands that it is the projection, by target and
      by identity. */
  lemma ResultDemanded(r: Request, prior: Snapshot, result: Snapshot, format: Bytes, atomicity: Atomicity, evidence: seq<Digest>)
    ensures var projected := Project(r, prior);
            var good := && LineSafeText(format) && !atomicity.NoBoundary? && DistinctKeys(DigestKey, evidence)
                        && projected.Some? && result.binding == r.binding && result.identity == projected.value.identity;
            && (PublishedReceipt(r, prior, result, format, atomicity, evidence).Some? <==> good)
            && (UnconfirmedReceipt(r, prior, result, format, atomicity, evidence).Some? <==> good)
  {
    hide Project, RequestId, LineSafeText, Normalize, DistinctKeys;
    NormalizeFails(DigestKey, evidence);
    ProjectedBinding(r, prior);
  }

  lemma ProjectedBinding(r: Request, prior: Snapshot)
    ensures Project(r, prior).Some? ==> IsCurrent(r, prior) && Project(r, prior).value.binding == r.binding
  {
    hide ApplyAll, ClaimsOf, SortOwners, IndexOf, SnapshotId, OwnershipId;
  }

  // ---- identity ------------------------------------------------------------------------

  function PublicationReceiptBody(rc: PublicationReceipt): Bytes {
    EncU16(SCHEMA) + EncDigest(Record, rc.request) + EncDigest(Record, rc.expected) + EncDigest(Record, rc.actual)
    + EncDigest(Record, BindingId(rc.binding)) + EncBytes(rc.format)
    + [rc.outcome.Code()] + [rc.durability.Code()] + [rc.atomicity.Code()]
    + EncOption(DigestEnc(Record), rc.resulting) + EncVector(DigestEnc(Record), rc.evidence)
  }

  function PublicationReceiptId(rc: PublicationReceipt): Digest {
    CanonicalRecord.Identify(CanonicalRecord.PublicationReceipt, PublicationReceiptBody(rc))
  }
}
