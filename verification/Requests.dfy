/** Publication requests and the projection of a request on the state it expects. */
module Requests {
  import opened Core
  import opened Order
  import opened Wire
  import opened Model
  import opened CanonicalRecord
  import opened ReceiptCodec
  import opened Snapshots
  import opened SnapshotStreams
  import opened Identities
  import PackagePath

  // ---- deltas -----------------------------------------------------------------

  /** The three shapes of a package-state delta.  An installed or replacing
      package carries its own name. */
  datatype Delta =
    | Install(proposed: Package, plan: Digest, evidence: Digest)
    | Replace(expected: Digest, proposed: Package, plan: Digest, evidence: Digest)
    | Remove(name: Bytes, expected: Digest, plan: Digest, evidence: Digest)
  {
    function Name(): Bytes { if Remove? then name else proposed.Name() }
    function Expected(): Option<Digest> { if Install? then None else Some(expected) }
    function Proposed(): Option<Package> { if Remove? then None else Some(proposed) }

    function Code(): Byte {
      match this
      case Install(_, _, _) => 1
      case Replace(_, _, _, _) => 2
      case Remove(_, _, _, _) => 3
    }
  }

  function DeltaKey(d: Delta): seq<int> { d.Name() }

  predicate EvidenceMatches(p: Package, plan: Digest, evidence: Digest) {
    p.receipt.plan == plan && p.receipt.evidence == evidence
  }

  /** Nonempty and free of NUL and line separators. */
  predicate LineSafeText(s: Bytes) { s != [] && PackagePath.Clean(s) }

  function MakeInstall(proposed: Package, plan: Digest, evidence: Digest): Option<Delta> {
    if EvidenceMatches(proposed, plan, evidence) then Some(Install(proposed, plan, evidence)) else None
  }

  function MakeReplace(expected: Digest, proposed: Package, plan: Digest, evidence: Digest): Option<Delta> {
    if !EvidenceMatches(proposed, plan, evidence) || expected == PackageId(proposed) then None
    else Some(Replace(expected, proposed, plan, evidence))
  }

  function MakeRemove(name: Bytes, expected: Digest, plan: Digest, evidence: Digest): Option<Delta> {
    if LineSafeText(name) then Some(Remove(name, expected, plan, evidence)) else None
  }

  ghost predicate Retains(p: Package, plan: Digest, evidence: Digest) {
    p.receipt == p.receipt.(plan := plan, evidence := evidence)
  }

  /** When the factories make a delta: the proposed receipt retains this plan and this
      application evidence, a replacement changes the package's identity, and a
      removal names a line-safe package. */
  lemma DeltaMade(d: Delta)
    ensures d.Install? ==> (MakeInstall(d.proposed, d.plan, d.evidence) == Some(d) <==> Retains(d.proposed, d.plan, d.evidence))
    ensures d.Replace? ==> (MakeReplace(d.expected, d.proposed, d.plan, d.evidence) == Some(d)
                            <==> Retains(d.proposed, d.plan, d.evidence) && PackageId(d.proposed) != d.expected)
    ensures d.Remove? ==> (MakeRemove(d.name, d.expected, d.plan, d.evidence) == Some(d)
                           <==> d.name != [] && 0 !in d.name && 10 !in d.name && 13 !in d.name)
  {
    hide PackageId;
    assert d.Remove? ==> (PackagePath.Clean(d.name) <==> 0 !in d.name && 10 !in d.name && 13 !in d.name);
  }

  /** Deltas exist only as results of the three factories. */
  ghost predicate ValidDelta(d: Delta) {
    match d
    case Install(p, plan, evidence) => ValidPackage(p) && MakeInstall(p, plan, evidence) == Some(d)
    case Replace(prior, p, plan, evidence) => ValidPackage(p) && MakeReplace(prior, p, plan, evidence) == Some(d)
    case Remove(name, prior, plan, evidence) => Sized(name) && MakeRemove(name, prior, plan, evidence) == Some(d)
  }

  ghost predicate ValidDeltas(deltas: seq<Delta>) { forall d :: d in deltas ==> ValidDelta(d) }

  // ---- requests ----------------------------------------------------------------

  datatype Request = Request(expected: Digest, binding: Binding, deltas: seq<Delta>, transaction: Option<Digest>)

  /** What a delta demands of the package now installed under its name. */
  predicate Fits(packages: seq<Package>, d: Delta) {
    var current := Lookup(packages, d.Name());
    if d.Install? then current.None? else current.Some? && PackageId(current.value) == d.expected
  }

  predicate Accepts(s: Snapshot, transaction: Option<Digest>, d: Delta) {
    && Fits(s.packages, d)
    && (!d.Remove? ==> d.proposed.Binding() == s.binding)
    && (!d.Remove? ==> d.proposed.receipt.transaction == transaction)
  }

  predicate AllAccepted(s: Snapshot, transaction: Option<Digest>, deltas: seq<Delta>) {
    forall d :: d in deltas ==> Accepts(s, transaction, d)
  }

  function MakeRequest(s: Snapshot, deltas: seq<Delta>, transaction: Option<Digest>): Option<Request> {
    if deltas == [] then None
    else
      var sorted :- Normalize(DeltaKey, deltas);
      if |sorted| > 1 && transaction.None? then None
      else if !AllAccepted(s, transaction, sorted) then None
      else Some(Request(s.identity, s.binding, sorted, transaction))
  }

  /** Requests exist only as results of the constructor on some snapshot. */
  ghost predicate MadeFrom(r: Request, s: Snapshot) {
    ValidDeltas(r.deltas) && MakeRequest(s, r.deltas, r.transaction) == Some(r)
  }

  lemma MadeRequest(s: Snapshot, deltas: seq<Delta>, transaction: Option<Digest>)
    requires ValidDeltas(deltas) && MakeRequest(s, deltas, transaction).Some?
    ensures MadeFrom(MakeRequest(s, deltas, transaction).value, s)
  {
    hide ValidDelta, Accepts;
    var sorted := Normalize(DeltaKey, deltas).value;
    NormalizeMeans(DeltaKey, deltas);
    NormalizeMembers(DeltaKey, deltas);
    NormalizeFixes(DeltaKey, sorted);
  }

  lemma RequestParts(r: Request, s: Snapshot)
    requires MadeFrom(r, s)
    ensures r.deltas != [] && Strict(DeltaKey, r.deltas) && AllAccepted(s, r.transaction, r.deltas)
    ensures r.expected == s.identity && r.binding == s.binding
    ensures |r.deltas| > 1 ==> r.transaction.Some?
    ensures ValidDeltas(r.deltas)
  {
    hide ValidDelta, Accepts;
    NormalizeMeans(DeltaKey, r.deltas);
  }

  /** What a snapshot and the request's transaction evidence demand of a delta, field by
      field. */
  ghost predicate Admissible(s: Snapshot, transaction: Option<Digest>, d: Delta) {
    match d
    case Install(proposed, _, _) =>
      && (forall p :: p in s.packages ==> p.Name() != proposed.Name())
      && proposed.receipt.binding == s.binding && proposed.receipt.transaction == transaction
    case Replace(expected, proposed, _, _) =>
      && (exists p :: p in s.packages && p.Name() == proposed.Name() && PackageId(p) == expected)
      && proposed.receipt.binding == s.binding && proposed.receipt.transaction == transaction
    case Remove(name, expected, _, _) =>
      exists p :: p in s.packages && p.Name() == name && PackageId(p) == expected
  }

  lemma AdmissibleAccepted(s: Snapshot, transaction: Option<Digest>, d: Delta)
    requires Strict(NameKey, s.packages)
    ensures Accepts(s, transaction, d) <==> Admissible(s, transaction, d)
  {
    hide PackageId, Lookup;
    LookupNone(s.packages, d.Name());
    forall p | p in s.packages && p.Name() == d.Name() ensures Lookup(s.packages, d.Name()) == Some(p) {
      LookupStrict(s.packages, d.Name(), p);
    }
  }

  /** A request is made exactly when there is a delta, no package is named twice, a
      composed request has transaction evidence and every delta is admissible; and it
      then carries just these deltas. */
  lemma RequestMade(s: Snapshot, deltas: seq<Delta>, transaction: Option<Digest>)
    requires Strict(NameKey, s.packages)
    ensures MakeRequest(s, deltas, transaction).Some?
       <==> && deltas != []
            && (forall i, j :: 0 <= i < j < |deltas| ==> deltas[i].Name() != deltas[j].Name())
            && (|deltas| > 1 ==> transaction.Some?)
            && (forall d :: d in deltas ==> Admissible(s, transaction, d))
    ensures MakeRequest(s, deltas, transaction).Some? ==>
              var r := MakeRequest(s, deltas, transaction).value;
              && r.expected == s.identity && r.binding == s.binding && r.transaction == transaction
              && multiset(r.deltas) == multiset(deltas) && Strict(DeltaKey, r.deltas)
  {
    hide Accepts, Admissible, Normalize;
    NormalizeFails(DeltaKey, deltas);
    NormalizeMeans(DeltaKey, deltas);
    NormalizeMembers(DeltaKey, deltas);
    assert DistinctKeys(DeltaKey, deltas) <==> forall i, j :: 0 <= i < j < |deltas| ==> deltas[i].Name() != deltas[j].Name();
    forall d ensures Accepts(s, transaction, d) <==> Admissible(s, transaction, d) {
      AdmissibleAccepted(s, transaction, d);
    }
  }

  /** Construction succeeds or fails alike, with one result, on every arrangement
      of the deltas. */
  lemma MakeRequestIgnoresOrder(s: Snapshot, a: seq<Delta>, b: seq<Delta>, transaction: Option<Digest>)
    requires multiset(a) == multiset(b)
    ensures MakeRequest(s, a, transaction) == MakeRequest(s, b, transaction)
  {
    NormalizeIgnoresOrder(DeltaKey, a, b);
    assert a == [] <==> multiset(a) == multiset{};
    assert |multiset(a)| == |a| && |multiset(b)| == |b|;
  }

  function EncPackageRef(p: Package): Bytes { EncDigest(Record, PackageId(p)) }

  function EncDeltaRecord(d: Delta): Bytes {
    [d.Code()] + EncBytes(d.Name()) + EncDigest(Record, d.plan) + EncDigest(Record, d.evidence)
    + EncOption(DigestEnc(Record), d.Expected()) + EncOption(EncPackageRef, d.Proposed())
  }

  function RequestBody(r: Request): Bytes {
    EncU16(SCHEMA) + EncDigest(Record, r.expected) + EncDigest(Record, BindingId(r.binding))
    + EncVector(EncDeltaRecord, r.deltas) + EncOption(DigestEnc(Record), r.transaction)
  }

  function RequestId(r: Request): Digest { Identify(PublicationRequest, RequestBody(r)) }

  // ---- projection -----------------------------------------------------------------

  /** std::lower_bound by name. */
  function Position(packages: seq<Package>, name: Bytes): (k: nat)
    ensures k <= |packages|
  {
    if packages == [] || !Less(packages[0].Name(), name) then 0 else 1 + Position(packages[1..], name)
  }

  predicate Present(packages: seq<Package>, k: nat, name: Bytes)
    requires k <= |packages|
  {
    k < |packages| && packages[k].Name() == name
  }

  /** The edit of the sorted vector that one delta makes. */
  function Apply(packages: seq<Package>, d: Delta): Option<seq<Package>> {
    var k := Position(packages, d.Name());
    match d
    case Install(p, _, _) =>
      if Present(packages, k, d.Name()) then None else Some(packages[..k] + [p] + packages[k..])
    case Replace(prior, p, _, _) =>
      if !Present(packages, k, d.Name()) || PackageId(packages[k]) != prior then None else Some(packages[k := p])
    case Remove(_, prior, _, _) =>
      if !Present(packages, k, d.Name()) || PackageId(packages[k]) != prior then None
      else Some(packages[..k] + packages[k + 1..])
  }

  function ApplyAll(packages: seq<Package>, deltas: seq<Delta>): Option<seq<Package>>
    decreases deltas
  {
    if deltas == [] then Some(packages)
    else
      var edited :- Apply(packages, deltas[0]);
      ApplyAll(edited, deltas[1..])
  }

  function Project(r: Request, prior: Snapshot): Option<Snapshot> {
    if prior.binding != r.binding || prior.identity != r.expected then None
    else
      var packages :- ApplyAll(prior.packages, r.deltas);
      MakeSnapshot(r.binding, packages)
  }

  // ---- lookup in a strictly sorted vector ----------------------------------------------

  lemma NamesDiffer(packages: seq<Package>, i: nat, j: nat)
    requires Strict(NameKey, packages) && i < |packages| && j < |packages|
    ensures packages[i].Name() == packages[j].Name() <==> i == j
  {
    LessTotal(NameKey(packages[i]), NameKey(packages[j]));
  }

  lemma LookupStrict(packages: seq<Package>, name: Bytes, p: Package)
    requires Strict(NameKey, packages)
    ensures Lookup(packages, name) == Some(p) <==> p in packages && p.Name() == name
  {
    LookupNone(packages, name);
    if p in packages && p.Name() == name {
      var q := Lookup(packages, name).value;
      var i :| 0 <= i < |packages| && packages[i] == p;
      var j :| 0 <= j < |packages| && packages[j] == q;
      NamesDiffer(packages, i, j);
    }
  }

  lemma {:induction false} PositionMeans(packages: seq<Package>, name: Bytes)
    requires Strict(NameKey, packages)
    ensures forall i :: 0 <= i < Position(packages, name) ==> Less(packages[i].Name(), name)
    ensures forall i :: Position(packages, name) <= i < |packages| ==> !Less(packages[i].Name(), name)
  {
    if packages != [] {
      if Less(packages[0].Name(), name) {
        PositionMeans(packages[1..], name);
        assert packages == [packages[0]] + packages[1..];
      } else {
        forall i | 0 < i < |packages| ensures !Less(packages[i].Name(), name) {
          if Less(packages[i].Name(), name) {
            LessTransitive(NameKey(packages[0]), NameKey(packages[i]), name);
          }
        }
      }
    }
  }

  lemma PositionLookup(packages: seq<Package>, name: Bytes)
    requires Strict(NameKey, packages)
    ensures var k := Position(packages, name);
            Lookup(packages, name) == if Present(packages, k, name) then Some(packages[k]) else None
  {
    var k := Position(packages, name);
    PositionMeans(packages, name);
    LookupNone(packages, name);
    if Present(packages, k, name) {
      LookupStrict(packages, name, packages[k]);
    } else {
      forall i | 0 <= i < |packages| ensures packages[i].Name() != name {
        LessTotal(NameKey(packages[i]), name);
      }
    }
  }

  // ---- one edit is one map update ----------------------------------------------------------

  lemma InsertSorted(packages: seq<Package>, p: Package)
    requires Strict(NameKey, packages) && !Present(packages, Position(packages, p.Name()), p.Name())
    ensures var k := Position(packages, p.Name()); Strict(NameKey, packages[..k] + [p] + packages[k..])
  {
    var k := Position(packages, p.Name());
    var edited := packages[..k] + [p] + packages[k..];
    PositionMeans(packages, p.Name());
    forall i | k <= i < |packages| ensures Less(p.Name(), packages[i].Name()) {
      LessTotal(NameKey(p), NameKey(packages[k]));
      if i > k { LessTransitive(NameKey(p), NameKey(packages[k]), NameKey(packages[i])); }
    }
    forall i, j | 0 <= i < j < |edited| ensures Less(NameKey(edited[i]), NameKey(edited[j])) {
      if i < k && j > k { assert edited[i] == packages[i] && edited[j] == packages[j - 1]; }
    }
  }

  lemma ReplaceSorted(packages: seq<Package>, k: nat, p: Package)
    requires Strict(NameKey, packages) && k < |packages| && packages[k].Name() == p.Name()
    ensures Strict(NameKey, packages[k := p])
    ensures forall q :: q in packages[k := p] <==> (q in packages && q.Name() != p.Name()) || q == p
  {
    var edited := packages[k := p];
    assert forall i :: 0 <= i < |edited| ==> edited[i].Name() == packages[i].Name();
    forall i, j | 0 <= i < j < |edited| ensures Less(NameKey(edited[i]), NameKey(edited[j])) {
      assert Less(NameKey(packages[i]), NameKey(packages[j]));
    }
    OthersNamed(packages, k);
    assert edited[k] == p;
    forall q | q in packages && q.Name() != p.Name() ensures q in edited {
      var i :| 0 <= i < |packages| && packages[i] == q;
      assert edited[i] == q;
    }
  }

  lemma RemoveSorted(packages: seq<Package>, k: nat)
    requires Strict(NameKey, packages) && k < |packages|
    ensures Strict(NameKey, packages[..k] + packages[k + 1..])
    ensures forall q :: q in packages[..k] + packages[k + 1..] <==> q in packages && q.Name() != packages[k].Name()
  {
    var edited := packages[..k] + packages[k + 1..];
    forall i, j | 0 <= i < j < |edited| ensures Less(NameKey(edited[i]), NameKey(edited[j])) {
      assert edited[i] == packages[if i < k then i else i + 1];
      assert edited[j] == packages[if j < k then j else j + 1];
    }
    OthersNamed(packages, k);
    forall q | q in packages && q.Name() != packages[k].Name() ensures q in edited {
      var i :| 0 <= i < |packages| && packages[i] == q;
      assert edited[if i < k then i else i - 1] == q;
    }
  }

  lemma OthersNamed(packages: seq<Package>, k: nat)
    requires Strict(NameKey, packages) && k < |packages|
    ensures forall i :: 0 <= i < |packages| && i != k ==> packages[i].Name() != packages[k].Name()
  {
    forall i | 0 <= i < |packages| && i != k ensures packages[i].Name() != packages[k].Name() {
      NamesDiffer(packages, i, k);
    }
  }

  lemma ApplyMembers(packages: seq<Package>, d: Delta)
    requires Strict(NameKey, packages) && Apply(packages, d).Some?
    ensures var edited := Apply(packages, d).value;
            && Strict(NameKey, edited)
            && (forall p :: p in edited <==> (p in packages && p.Name() != d.Name()) || d.Proposed() == Some(p))
            && |edited| == |packages| + (if d.Install? then 1 else 0) - (if d.Remove? then 1 else 0)
  {
    hide PackageId, Strict;
    var k := Position(packages, d.Name());
    match d
    case Install(p, _, _) =>
      InsertSorted(packages, p);
      PositionLookup(packages, p.Name());
      LookupNone(packages, p.Name());
      assert packages == packages[..k] + packages[k..];
    case Replace(_, p, _, _) => ReplaceSorted(packages, k, p);
    case Remove(_, _, _, _) => RemoveSorted(packages, k);
  }

  /** An edit succeeds exactly when the delta fits, and then maps the delta's name
      to the proposed package, or to nothing, and leaves every other name alone. */
  lemma ApplyIsUpdate(packages: seq<Package>, d: Delta, name: Bytes)
    requires Strict(NameKey, packages)
    ensures Apply(packages, d).Some? <==> Fits(packages, d)
    ensures Apply(packages, d).Some? ==>
              Lookup(Apply(packages, d).value, name) == if name == d.Name() then d.Proposed() else Lookup(packages, name)
  {
    hide PackageId;
    PositionLookup(packages, d.Name());
    if Apply(packages, d).Some? {
      var edited := Apply(packages, d).value;
      ApplyMembers(packages, d);
      LookupNone(packages, name);
      LookupNone(edited, name);
      if name == d.Name() && d.Proposed().Some? {
        LookupStrict(edited, name, d.proposed);
      }
      if name != d.Name() && Lookup(packages, name).Some? {
        LookupStrict(edited, name, Lookup(packages, name).value);
      }
      if name != d.Name() && Lookup(edited, name).Some? {
        LookupStrict(packages, name, Lookup(edited, name).value);
      }
    }
  }

  // ---- all edits are one map update --------------------------------------------------------

  /** What the deltas leave installed under a name. */
  function After(deltas: seq<Delta>, name: Bytes, before: Option<Package>): Option<Package> {
    if deltas == [] then before
    else if deltas[0].Name() == name then deltas[0].Proposed()
    else After(deltas[1..], name, before)
  }

  lemma {:induction false} AfterUnnamed(deltas: seq<Delta>, name: Bytes, before: Option<Package>)
    requires forall d :: d in deltas ==> d.Name() != name
    ensures After(deltas, name, before) == before
  {
    if deltas != [] { AfterUnnamed(deltas[1..], name, before); }
  }

  function Installs(deltas: seq<Delta>): nat {
    if deltas == [] then 0 else (if deltas[0].Install? then 1 else 0) + Installs(deltas[1..])
  }

  function Removals(deltas: seq<Delta>): nat {
    if deltas == [] then 0 else (if deltas[0].Remove? then 1 else 0) + Removals(deltas[1..])
  }

  lemma LaterNames(deltas: seq<Delta>)
    requires Strict(DeltaKey, deltas) && deltas != []
    ensures Strict(DeltaKey, deltas[1..])
    ensures forall d :: d in deltas[1..] ==> d.Name() != deltas[0].Name()
  {
    forall d | d in deltas[1..] ensures d.Name() != deltas[0].Name() {
      var i :| 0 <= i < |deltas| - 1 && deltas[1..][i] == d;
      assert Less(DeltaKey(deltas[0]), DeltaKey(deltas[i + 1]));
      LessTotal(DeltaKey(deltas[0]), DeltaKey(deltas[i + 1]));
    }
  }

  /** The loop over the sorted vector is a map update: the vector stays strictly
      sorted, every named package is as its delta says, every other package is
      untouched, and the size changes by installs minus removals. */
  lemma {:induction false} ApplyAllIsUpdate(packages: seq<Package>, deltas: seq<Delta>, name: Bytes)
    requires Strict(NameKey, packages) && Strict(DeltaKey, deltas) && ApplyAll(packages, deltas).Some?
    ensures var result := ApplyAll(packages, deltas).value;
            && Strict(NameKey, result)
            && Lookup(result, name) == After(deltas, name, Lookup(packages, name))
            && |result| + Removals(deltas) == |packages| + Installs(deltas)
            && forall p :: p in result ==> p in packages || exists d :: d in deltas && d.Proposed() == Some(p)
    decreases deltas
  {
    hide Apply, Fits, Lookup;
    if deltas != [] {
      var d, edited := deltas[0], Apply(packages, deltas[0]).value;
      LaterNames(deltas);
      ApplyMembers(packages, d);
      ApplyIsUpdate(packages, d, name);
      ApplyAllIsUpdate(edited, deltas[1..], name);
      if name == d.Name() { AfterUnnamed(deltas[1..], name, d.Proposed()); }
      assert forall e :: e in deltas[1..] ==> e in deltas;
    }
  }

  /** Every delta is checked against the vector as already edited, which gives the
      same answer as a check against the original. */
  lemma {:induction false} ApplyAllTotal(packages: seq<Package>, deltas: seq<Delta>)
    requires Strict(NameKey, packages) && Strict(DeltaKey, deltas)
    ensures ApplyAll(packages, deltas).Some? <==> forall d :: d in deltas ==> Fits(packages, d)
    decreases deltas
  {
    hide Apply, Lookup, PackageId;
    if deltas != [] {
      var d := deltas[0];
      LaterNames(deltas);
      ApplyIsUpdate(packages, d, d.Name());
      assert forall e :: e in deltas <==> e == d || e in deltas[1..];
      if Apply(packages, d).Some? {
        var edited := Apply(packages, d).value;
        ApplyMembers(packages, d);
        ApplyAllTotal(edited, deltas[1..]);
        forall e | e in deltas[1..] ensures Fits(edited, e) <==> Fits(packages, e) {
          ApplyIsUpdate(packages, d, e.Name());
        }
      }
    }
  }

  // ---- projecting a request -------------------------------------------------------------------

  lemma ProjectedPackages(r: Request, s: Snapshot)
    requires ValidSnapshot(s) && MadeFrom(r, s)
    ensures ApplyAll(s.packages, r.deltas).Some?
    ensures var packages := ApplyAll(s.packages, r.deltas).value;
            ValidPackages(packages) && AllBoundTo(r.binding, packages) && Strict(NameKey, packages)
  {
    hide ValidPackage, PackageId, ApplyAll, Lookup, MakeSnapshot, MakeRequest;
    SnapshotSorted(s);
    RequestParts(r, s);
    ApplyAllTotal(s.packages, r.deltas);
    ApplyAllIsUpdate(s.packages, r.deltas, []);
  }

  /** A request projects on the snapshot it was made from, always; the one failure
      left, a path claimed twice under one identity, exhibits a collision. */
  lemma ProjectionTotal(r: Request, s: Snapshot)
    requires ValidSnapshot(s) && MadeFrom(r, s)
    ensures ApplyAll(s.packages, r.deltas).Some?
    ensures Project(r, s).Some? <==> !DoubleClaim(ApplyAll(s.packages, r.deltas).value)
    ensures Project(r, s).None? ==>
              exists p, q :: p != q && Colliding(PackagePair(p, q))
                             && p in ApplyAll(s.packages, r.deltas).value && q in ApplyAll(s.packages, r.deltas).value
  {
    hide ValidPackage, PackageId, ApplyAll, MakeRequest, MakeSnapshot, DoubleClaim, PackagePair, ValidSnapshot;
    ProjectedPackages(r, s);
    RequestParts(r, s);
    var packages := ApplyAll(s.packages, r.deltas).value;
    SnapshotMade(r.binding, packages);
    NormalizeFixes(NameKey, packages);
    NormalizeFails(NameKey, packages);
    if DoubleClaim(packages) { DoubleClaimCollides(packages); }
  }

  /** What every request has, whichever snapshot it was made from. */
  ghost predicate WellFormed(r: Request) { r.deltas != [] && ValidDeltas(r.deltas) && Strict(DeltaKey, r.deltas) }

  /** The projected snapshot is the prior one updated by the deltas. */
  lemma ProjectionRefines(r: Request, prior: Snapshot, name: Bytes)
    requires ValidSnapshot(prior) && WellFormed(r) && Project(r, prior).Some?
    ensures var result := Project(r, prior).value;
            && ValidSnapshot(result) && result.binding == prior.binding
            && Lookup(result.packages, name) == After(r.deltas, name, Lookup(prior.packages, name))
            && |result.packages| + Removals(r.deltas) == |prior.packages| + Installs(r.deltas)
  {
    hide PackageId, ApplyAll, Lookup, After, ClaimsOf, SortOwners, IndexOf, SnapshotId, OwnershipId, MakeSnapshot, ValidPackage;
    SnapshotSorted(prior);
    var packages := ApplyAll(prior.packages, r.deltas).value;
    ApplyAllIsUpdate(prior.packages, r.deltas, name);
    MadeSnapshot(r.binding, packages);
    ProjectedIs(r, prior);
  }

  lemma ProjectedIs(r: Request, prior: Snapshot)
    requires ValidSnapshot(prior) && WellFormed(r) && Project(r, prior).Some?
    ensures ApplyAll(prior.packages, r.deltas) == Some(Project(r, prior).value.packages)
  {
    hide PackageId, ApplyAll, ClaimsOf, SortOwners, IndexOf, SnapshotId, OwnershipId, ValidPackage, ValidDeltas;
    SnapshotSorted(prior);
    ApplyAllIsUpdate(prior.packages, r.deltas, []);
    NormalizeFixes(NameKey, ApplyAll(prior.packages, r.deltas).value);
  }

  /** Publishing always changes the package under the first delta's name; if the
      identity stays the same all the same, a collision is exhibited. */
  lemma ProjectionChanges(r: Request, prior: Snapshot)
    requires ValidSnapshot(prior) && WellFormed(r) && Project(r, prior).Some?
    ensures Project(r, prior).value.packages != prior.packages
    ensures Project(r, prior).value.identity == prior.identity ==> Colliding(SnapshotPair(Project(r, prior).value, prior))
  {
    hide PackageId, ApplyAll, Lookup, MakeSnapshot, Project, SnapshotPair, ValidSnapshot, ValidPackage;
    var d := r.deltas[0];
    ProjectionRefines(r, prior, d.Name());
    FirstFits(r, prior);
    assert ValidDelta(d);
    assert After(r.deltas, d.Name(), Lookup(prior.packages, d.Name())) == d.Proposed();
    if Project(r, prior).value.identity == prior.identity {
      SnapshotBinds(Project(r, prior).value, prior);
    }
  }

  lemma FirstFits(r: Request, prior: Snapshot)
    requires ValidSnapshot(prior) && WellFormed(r) && Project(r, prior).Some?
    ensures Fits(prior.packages, r.deltas[0])
  {
    hide Fits, ValidPackage, MakeSnapshot, ApplyAll;
    SnapshotSorted(prior);
    ApplyAllTotal(prior.packages, r.deltas);
    assert r.deltas[0] in r.deltas;
  }
}
