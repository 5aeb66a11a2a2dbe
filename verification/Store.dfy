/** Stale-safe compare-and-publish over an abstract backend. */
module Store {
  import opened Core
  import opened Order
  import opened Model
  import opened Snapshots
  import opened Identities
  import opened Requests
  import opened RequestStreams
  import opened Receipts

  // ---- what a backend reports -------------------------------------------------------

  datatype BackendResult = BackendResult(outcome: PublicationOutcome, atomicity: Atomicity,
                                         established: bool, evidence: seq<Digest>)

  function MakeBackendResult(outcome: PublicationOutcome, atomicity: Atomicity, established: bool,
                             evidence: seq<Digest>): Option<BackendResult>
  {
    var sorted :- Normalize(DigestKey, evidence);
    Some(BackendResult(outcome, atomicity, established, sorted))
  }

  function BackendPublished(atomicity: Atomicity, evidence: seq<Digest>): Option<BackendResult> {
    if atomicity.NoBoundary? then None else MakeBackendResult(Published, atomicity, true, evidence)
  }

  function BackendRejected(evidence: seq<Digest>): Option<BackendResult> {
    MakeBackendResult(RequestRejected, NoBoundary, false, evidence)
  }

  function BackendFailed(evidence: seq<Digest>): Option<BackendResult> {
    MakeBackendResult(FailedBeforePublication, NoBoundary, false, evidence)
  }

  function BackendUnconfirmed(atomicity: Atomicity, evidence: seq<Digest>): Option<BackendResult> {
    if atomicity.NoBoundary? then None else MakeBackendResult(PublishedDurabilityUnconfirmed, atomicity, true, evidence)
  }

  function BackendIndeterminate(atomicity: Atomicity, established: bool, evidence: seq<Digest>): Option<BackendResult> {
    if atomicity.NoBoundary? then None else MakeBackendResult(Indeterminate, atomicity, established, evidence)
  }

  /** Backend results exist only as results of the five factories; none of them
      reports stale state. */
  predicate ValidBackendResult(b: BackendResult) {
    match b.outcome
    case Published => BackendPublished(b.atomicity, b.evidence) == Some(b)
    case StaleExpectedState => false
    case RequestRejected => BackendRejected(b.evidence) == Some(b)
    case FailedBeforePublication => BackendFailed(b.evidence) == Some(b)
    case PublishedDurabilityUnconfirmed => BackendUnconfirmed(b.atomicity, b.evidence) == Some(b)
    case Indeterminate => BackendIndeterminate(b.atomicity, b.established, b.evidence) == Some(b)
  }

  /** The backend contract: a result that establishes the snapshot made it
      visible, a rejected or failed attempt left the prior state, and only an
      unestablished indeterminate attempt may have gone either way. */
  predicate Obeys(b: BackendResult, moved: bool) {
    match b.outcome
    case Published => moved
    case PublishedDurabilityUnconfirmed => moved
    case StaleExpectedState => !moved
    case RequestRejected => !moved
    case FailedBeforePublication => !moved
    case Indeterminate => b.established ==> moved
  }

  // ---- compare and publish -------------------------------------------------------------

  /** `attempted` is the snapshot handed to the backend's publish, if it was
      called; no receipt means that the call threw. */
  datatype Verdict = Verdict(receipt: Option<PublicationReceipt>, attempted: Option<Snapshot>)

  /** The receipt for what the backend reported. */
  function Classify(r: Request, prior: Snapshot, result: Snapshot, format: Bytes, b: BackendResult): Option<PublicationReceipt> {
    match b.outcome
    case Published => PublishedReceipt(r, prior, result, format, b.atomicity, b.evidence)
    case RequestRejected => RejectedReceipt(r, prior, format, b.evidence)
    case FailedBeforePublication => FailedReceipt(r, prior, format, b.evidence)
    case PublishedDurabilityUnconfirmed => UnconfirmedReceipt(r, prior, result, format, b.atomicity, b.evidence)
    case Indeterminate =>
      IndeterminateReceipt(r, prior, if b.established then Some(result.identity) else None, format, b.atomicity, b.evidence)
    case StaleExpectedState => None
  }

  function CompareAndPublish(r: Request, prior: Snapshot, format: Bytes, b: BackendResult): Verdict {
    if !LineSafeText(format) || prior.binding != r.binding then Verdict(None, None)
    else if prior.identity != r.expected then Verdict(StaleReceipt(r, prior, format, []), None)
    else
      match Project(r, prior)
      case None => Verdict(None, None)
      case Some(result) => Verdict(Classify(r, prior, result, format, b), Some(result))
  }

  /** Once publish has been called every later check passes, so the call ends in a
      truthful receipt of the reported outcome; and a stale comparison, which also
      ends in a receipt, never reaches publish. */
  lemma NoSilentPublication(r: Request, prior: Snapshot, format: Bytes, b: BackendResult)
    requires ValidBackendResult(b)
    ensures var v := CompareAndPublish(r, prior, format, b);
            && (v.attempted.Some? ==>
                  && v.receipt.Some? && Truthful(v.receipt.value, r, prior)
                  && v.attempted == Project(r, prior)
                  && v.receipt.value.outcome == b.outcome
                  && (v.receipt.value.resulting.Some? <==> b.established))
            && (LineSafeText(format) && IsStale(r, prior) ==>
                  v.attempted.None? && v.receipt.Some? && Truthful(v.receipt.value, r, prior)
                  && v.receipt.value.outcome.StaleExpectedState?)
            && (v.receipt.Some? ==> v.receipt.value.format == format)
  {
    hide Project, RequestId, LineSafeText;
    NormalizeFixes(DigestKey, []);
    ProjectedBinding(r, prior);
    BackendEvidence(b);
    NormalizeFixes(DigestKey, b.evidence);
  }

  /** The receipt in full.  A publish that was attempted is reported with the backend's
      own outcome, boundary and evidence, and cites the projection exactly when the
      backend established it; a stale comparison is reported without evidence. */
  lemma PublicationExact(r: Request, prior: Snapshot, format: Bytes, b: BackendResult)
    requires ValidBackendResult(b)
    ensures var v := CompareAndPublish(r, prior, format, b);
            && (v.attempted.Some? <==>
                  LineSafeText(format) && prior.binding == r.binding && prior.identity == r.expected && Project(r, prior).Some?)
            && (v.receipt.Some? <==>
                  LineSafeText(format) && prior.binding == r.binding && (prior.identity != r.expected || Project(r, prior).Some?))
            && (v.attempted.Some? ==>
                  && v.attempted == Project(r, prior)
                  && v.receipt == Some(PublicationReceipt(
                       RequestId(r), r.expected, prior.identity, r.binding, format, b.outcome, KnownDurability(b.outcome),
                       b.atomicity, if b.established then Some(Project(r, prior).value.identity) else None, b.evidence)))
            && (v.receipt.Some? && v.attempted.None? ==>
                  v.receipt == Some(PublicationReceipt(
                    RequestId(r), r.expected, prior.identity, r.binding, format, StaleExpectedState, NotAttempted,
                    NoBoundary, None, [])))
  {
    hide Project, RequestId, LineSafeText, Normalize;
    NormalizeFixes(DigestKey, []);
    ProjectedBinding(r, prior);
    BackendExact(b);
    NormalizeFixes(DigestKey, b.evidence);
  }

  /** What an outcome lets one know of durability. */
  function KnownDurability(outcome: PublicationOutcome): Durability {
    if outcome.Published? then Confirmed
    else if outcome.PublishedDurabilityUnconfirmed? then Unconfirmed
    else if outcome.Indeterminate? then Unknown
    else NotAttempted
  }

  /** The backend's factories give exactly these results. */
  lemma BackendExact(b: BackendResult)
    ensures ValidBackendResult(b)
       <==> && Strict(DigestKey, b.evidence) && !b.outcome.StaleExpectedState?
            && (b.atomicity.NoBoundary? <==> b.outcome.RequestRejected? || b.outcome.FailedBeforePublication?)
            && (b.outcome.Published? || b.outcome.PublishedDurabilityUnconfirmed? ==> b.established)
            && (b.outcome.RequestRejected? || b.outcome.FailedBeforePublication? ==> !b.established)
  {
    hide Normalize, Strict;
    NormalizeMeans(DigestKey, b.evidence);
    if Strict(DigestKey, b.evidence) { NormalizeFixes(DigestKey, b.evidence); }
  }

  /** Each factory retains the evidence it is given, in identity order, or refuses a
      repetition; the ones that may have published demand a boundary. */
  lemma BackendFactories(atomicity: Atomicity, established: bool, evidence: seq<Digest>, b: BackendResult)
    ensures var retained := Strict(DigestKey, b.evidence) && multiset(b.evidence) == multiset(evidence);
            && (BackendPublished(atomicity, evidence) == Some(b) <==>
                  retained && !atomicity.NoBoundary? && b.outcome == Published && b.atomicity == atomicity && b.established)
            && (BackendRejected(evidence) == Some(b) <==>
                  retained && b.outcome == RequestRejected && b.atomicity.NoBoundary? && !b.established)
            && (BackendFailed(evidence) == Some(b) <==>
                  retained && b.outcome == FailedBeforePublication && b.atomicity.NoBoundary? && !b.established)
            && (BackendUnconfirmed(atomicity, evidence) == Some(b) <==>
                  retained && !atomicity.NoBoundary? && b.outcome == PublishedDurabilityUnconfirmed
                  && b.atomicity == atomicity && b.established)
            && (BackendIndeterminate(atomicity, established, evidence) == Some(b) <==>
                  retained && !atomicity.NoBoundary? && b.outcome == Indeterminate
                  && b.atomicity == atomicity && b.established == established)
  {
    hide Normalize, Strict;
    NormalizeMeans(DigestKey, evidence);
  }

  lemma BackendEvidence(b: BackendResult)
    requires ValidBackendResult(b)
    ensures Strict(DigestKey, b.evidence)
  {
    NormalizeMeans(DigestKey, b.evidence);
  }

  /** A request that has just been established is stale on its own result, so
      resubmitting it reaches no second publish, unless a collision is exhibited. */
  lemma NoImmediateReplay(r: Request, s: Snapshot, format: Bytes, b: BackendResult)
    requires ValidSnapshot(s) && WellFormed(r) && Project(r, s).Some? && LineSafeText(format)
    ensures var result := Project(r, s).value;
            || Colliding(SnapshotPair(result, s))
            || (var v := CompareAndPublish(r, result, format, b);
                v.attempted.None? && v.receipt.Some? && v.receipt.value.outcome.StaleExpectedState?)
  {
    hide Project, RequestId, LineSafeText, ValidSnapshot, WellFormed, SnapshotPair;
    ProjectionChanges(r, s);
    ProjectedBinding(r, s);
    NormalizeFixes(DigestKey, []);
  }

  // ---- the store as an object ------------------------------------------------------------

  /** The lock-scoped transaction.  What the backend will report, and whether an
      indeterminate attempt became visible, are inputs: the contract is all that
      is known of it. */
  class Transaction {
    var current: Snapshot
    const format: Bytes
    var publications: nat

    constructor (current: Snapshot, format: Bytes)
      ensures this.current == current && this.format == format && publications == 0
    {
      this.current := current;
      this.format := format;
      publications := 0;
    }

    method Publish(resulting: Snapshot, report: BackendResult, moved: bool) returns (b: BackendResult)
      requires ValidBackendResult(report) && Obeys(report, moved)
      modifies this
      ensures b == report
      ensures current == if moved then resulting else old(current)
      ensures publications == old(publications) + 1
    {
      if moved {
        current := resulting;
      }
      publications := publications + 1;
      b := report;
    }
  }

  method NormalizeEvidence(evidence: seq<Digest>) returns (sorted: Option<seq<Digest>>)
    ensures sorted == Normalize(DigestKey, evidence)
    ensures sorted.Some? ==> Strict(DigestKey, sorted.value) && multiset(sorted.value) == multiset(evidence)
    ensures sorted.None? <==> !DistinctKeys(DigestKey, evidence)
  {
    NormalizeMeans(DigestKey, evidence);
    NormalizeFails(DigestKey, evidence);
    var s := SortBy(DigestKey, evidence);
    return if DistinctNeighbours(DigestKey, s) then Some(s) else None;
  }

  class CanonicalStore {
    var state: Snapshot
    const format: Bytes
    var publications: nat

    constructor (state: Snapshot, format: Bytes)
      requires ValidSnapshot(state)
      ensures Valid() && this.state == state && this.format == format && publications == 0
    {
      hide ValidSnapshot;
      this.state := state;
      this.format := format;
      publications := 0;
    }

    ghost predicate Valid()
      reads this
    {
      ValidSnapshot(state)
    }

    /** Acquires the lock, compares, publishes when current and returns the
        receipt; None stands for a thrown error.  `locked` is false when the
        backend hands out no transaction. */
    method CompareAndPublishUnderLock(r: Request, locked: bool, report: BackendResult, moved: bool)
      returns (receipt: Option<PublicationReceipt>)
      requires Valid() && WellFormed(r) && ValidBackendResult(report) && Obeys(report, moved)
      modifies this
      ensures Valid()
      ensures receipt == if locked then CompareAndPublish(r, old(state), format, report).receipt else None
      ensures state == if locked && moved && CompareAndPublish(r, old(state), format, report).attempted.Some?
                       then CompareAndPublish(r, old(state), format, report).attempted.value else old(state)
      ensures publications == old(publications)
                + if locked && CompareAndPublish(r, old(state), format, report).attempted.Some? then 1 else 0
    {
      if !locked {
        return None;
      }
      hide ValidSnapshot, LineSafeText, Project, Classify, RequestId, ValidBackendResult;
      var transaction := new Transaction(state, format);
      var prior := transaction.current;
      if !LineSafeText(transaction.format) {
        return None;
      }
      if prior.binding != r.binding {
        return None;
      }
      if prior.identity != r.expected {
        return StaleReceipt(r, prior, transaction.format, []);
      }
      assert Strict(NameKey, prior.packages) by { SnapshotSorted(prior); }
      var resulting := ProjectPublicationRequest(r, prior);
      if resulting.None? {
        return None;
      }
      var result := transaction.Publish(resulting.value, report, moved);
      assert ValidSnapshot(resulting.value) by { ProjectionRefines(r, prior, []); }
      state := transaction.current;
      publications := publications + transaction.publications;
      receipt := Classify(r, prior, resulting.value, transaction.format, result);
    }
  }
}
