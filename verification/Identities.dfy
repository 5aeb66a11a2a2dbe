/** Identities bind content: values with one identity are equal, or two distinct
    preimages with one SHA-256 digest are exhibited.  That some collision exists
    is certain, since byte strings outnumber digests, so every statement names
    the two preimages. */
module Identities {
  import opened Core
  import opened Order
  import opened Wire
  import opened Model
  import opened SourceCodec
  import opened CanonicalRecord
  import opened ReceiptCodec
  import opened Snapshots

  predicate Colliding(pair: (Bytes, Bytes)) { Collision(pair.0, pair.1) }

  function BindingPair(a: Binding, b: Binding): (Bytes, Bytes) {
    (Preimage(TargetBinding, EncBinding(Record, a)), Preimage(TargetBinding, EncBinding(Record, b)))
  }

  function SourcePair(a: Source, b: Source): (Bytes, Bytes) {
    (Preimage(PackageSourceRecord, EncSource(Record, a)), Preimage(PackageSourceRecord, EncSource(Record, b)))
  }

  /** The preimages at the level where two different controls part. */
  function ControlPair(a: Control, b: Control): (Bytes, Bytes) {
    if ControlBody(a) != ControlBody(b)
    then (Preimage(InstalledControl, ControlBody(a)), Preimage(InstalledControl, ControlBody(b)))
    else SourcePair(a.source, b.source)
  }

  function ReceiptPair(a: Receipt, b: Receipt): (Bytes, Bytes) {
    if ReceiptBody(a) != ReceiptBody(b)
    then (Preimage(InstallationReceipt, ReceiptBody(a)), Preimage(InstallationReceipt, ReceiptBody(b)))
    else if a.control != b.control then ControlPair(a.control, b.control)
    else BindingPair(a.binding, b.binding)
  }

  function PackageBody(p: Package): Bytes { EncDigest(Record, ReceiptId(p.receipt)) }

  function PackagePair(p: Package, q: Package): (Bytes, Bytes) {
    if PackageBody(p) != PackageBody(q)
    then (Preimage(InstalledPackage, PackageBody(p)), Preimage(InstalledPackage, PackageBody(q)))
    else ReceiptPair(p.receipt, q.receipt)
  }

  function SnapshotContent(s: Snapshot): Bytes { SnapshotBody(s.binding, s.packages, s.ownership) }

  function SnapshotPair(a: Snapshot, b: Snapshot): (Bytes, Bytes) {
    if SnapshotContent(a) != SnapshotContent(b)
    then (Preimage(InstalledSnapshot, SnapshotContent(a)), Preimage(InstalledSnapshot, SnapshotContent(b)))
    else if a.binding != b.binding then BindingPair(a.binding, b.binding)
    else PackagesPair(a.packages, b.packages)
  }

  /** The first pair of different packages. */
  function PackagesPair(a: seq<Package>, b: seq<Package>): (Bytes, Bytes) {
    if a == [] || b == [] then ([], [])
    else if a[0] != b[0] then PackagePair(a[0], b[0])
    else PackagesPair(a[1..], b[1..])
  }

  lemma DifferentBodies(d: Domain, a: Bytes, b: Bytes)
    requires a != b && Identify(d, a) == Identify(d, b)
    ensures Collision(Preimage(d, a), Preimage(d, b))
  {
    hide Header;
    if Preimage(d, a) == Preimage(d, b) { PreimageInjective(d, a, d, b); }
  }

  lemma DigestInjective(a: Digest, b: Digest)
    requires EncDigest(Record, a) == EncDigest(Record, b)
    ensures a == b
  {
    hide EncDigest, ParseDigest;
    DigestRoundTrip(Record, a, []);
    DigestRoundTrip(Record, b, []);
  }

  lemma BindingBinds(a: Binding, b: Binding)
    requires BindingId(a) == BindingId(b) && a != b
    ensures Colliding(BindingPair(a, b))
  {
    hide EncBinding, ParseBinding, Identify;
    if EncBinding(Record, a) == EncBinding(Record, b) {
      BindingRoundTrip(Record, a, []);
      BindingRoundTrip(Record, b, []);
    }
    DifferentBodies(TargetBinding, EncBinding(Record, a), EncBinding(Record, b));
  }

  lemma SourceBinds(a: Source, b: Source)
    requires a.Valid() && b.Valid() && SourceId(a) == SourceId(b) && a != b
    ensures Colliding(SourcePair(a, b))
  {
    hide EncSource, ParseSource, Identify;
    if EncSource(Record, a) == EncSource(Record, b) {
      SourceRoundTrip(Record, a, []);
      SourceRoundTrip(Record, b, []);
    }
    DifferentBodies(PackageSourceRecord, EncSource(Record, a), EncSource(Record, b));
  }

  lemma ControlBodyInjective(a: Control, b: Control)
    requires ValidControl(a) && ValidControl(b) && ControlBody(a) == ControlBody(b)
    ensures SourceId(a.source) == SourceId(b.source) && a.reason == b.reason && a.build == b.build
  {
    hide EncDigest, ParseDigest, EncControlTail, ParseControlTail, SourceId;
    DigestRoundTrip(Record, SourceId(a.source), EncControlTail(Record, a));
    DigestRoundTrip(Record, SourceId(b.source), EncControlTail(Record, b));
    ControlTailRoundTrip(Record, a, []);
    ControlTailRoundTrip(Record, b, []);
    assert EncControlTail(Record, a) + [] == EncControlTail(Record, a);
    assert EncControlTail(Record, b) + [] == EncControlTail(Record, b);
  }

  lemma ControlBinds(a: Control, b: Control)
    requires ValidControl(a) && ValidControl(b) && ControlId(a) == ControlId(b) && a != b
    ensures Colliding(ControlPair(a, b))
  {
    hide ControlBody, SourceId, SourcePair, Identify;
    if ControlBody(a) == ControlBody(b) {
      ControlBodyInjective(a, b);
      SourceBinds(a.source, b.source);
    } else {
      DifferentBodies(InstalledControl, ControlBody(a), ControlBody(b));
    }
  }

  lemma ReceiptBodyInjective(a: Receipt, b: Receipt)
    requires ValidReceipt(a) && ValidReceipt(b) && ReceiptBody(a) == ReceiptBody(b)
    ensures ControlId(a.control) == ControlId(b.control) && BindingId(a.binding) == BindingId(b.binding)
    ensures a.manifest == b.manifest && a.plan == b.plan && a.evidence == b.evidence && a.transaction == b.transaction
  {
    hide EncDigest, ParseDigest, EncReceiptTail, ParseReceiptTail, ControlId, BindingId, EncU16, ValidControl;
    ReceiptBodyTail(a);
    ReceiptBodyTail(b);
    DigestRoundTrip(Record, ControlId(a.control), EncDigest(Record, BindingId(a.binding)) + EncReceiptTail(Record, a));
    DigestRoundTrip(Record, ControlId(b.control), EncDigest(Record, BindingId(b.binding)) + EncReceiptTail(Record, b));
    DigestRoundTrip(Record, BindingId(a.binding), EncReceiptTail(Record, a));
    DigestRoundTrip(Record, BindingId(b.binding), EncReceiptTail(Record, b));
    ReceiptTailRoundTrip(Record, a, []);
    ReceiptTailRoundTrip(Record, b, []);
    assert EncReceiptTail(Record, a) + [] == EncReceiptTail(Record, a);
    assert EncReceiptTail(Record, b) + [] == EncReceiptTail(Record, b);
  }

  lemma ReceiptBodyTail(r: Receipt)
    ensures |ReceiptBody(r)| >= 2
    ensures ReceiptBody(r)[2..] == EncDigest(Record, ControlId(r.control))
              + (EncDigest(Record, BindingId(r.binding)) + EncReceiptTail(Record, r))
  {
    hide EncDigest, EncReceiptTail, ControlId, BindingId;
  }

  lemma ReceiptBinds(a: Receipt, b: Receipt)
    requires ValidReceipt(a) && ValidReceipt(b) && ReceiptId(a) == ReceiptId(b) && a != b
    ensures Colliding(ReceiptPair(a, b))
  {
    hide ReceiptBody, ControlId, BindingId, ControlPair, BindingPair, Identify, ValidControl;
    if ReceiptBody(a) == ReceiptBody(b) {
      ReceiptBodyInjective(a, b);
      if a.control != b.control {
        ControlBinds(a.control, b.control);
      } else {
        BindingBinds(a.binding, b.binding);
      }
    } else {
      DifferentBodies(InstallationReceipt, ReceiptBody(a), ReceiptBody(b));
    }
  }

  /** Packages with one identity are equal, or a collision is exhibited. */
  lemma PackageBinds(p: Package, q: Package)
    requires ValidPackage(p) && ValidPackage(q) && PackageId(p) == PackageId(q) && p != q
    ensures Colliding(PackagePair(p, q))
  {
    hide ReceiptId, ReceiptPair, EncDigest, Identify, ValidReceipt;
    if PackageBody(p) == PackageBody(q) {
      DigestInjective(ReceiptId(p.receipt), ReceiptId(q.receipt));
      ReceiptBinds(p.receipt, q.receipt);
    } else {
      DifferentBodies(InstalledPackage, PackageBody(p), PackageBody(q));
    }
  }

  lemma {:induction false} PackageIdsSize(packages: seq<Package>)
    ensures |EncList(EncPackageId, packages)| == 44 * |packages|
  {
    hide PackageId, EncDigest;
    if packages != [] {
      DigestSize(Record, PackageId(packages[0]));
      PackageIdsSize(packages[1..]);
    }
  }

  lemma {:induction false} PackageIdsInjective(a: seq<Package>, b: seq<Package>)
    requires |a| == |b| && EncList(EncPackageId, a) == EncList(EncPackageId, b)
    ensures forall i :: 0 <= i < |a| ==> PackageId(a[i]) == PackageId(b[i])
  {
    hide PackageId, EncDigest, ParseDigest;
    if a != [] {
      DigestRoundTrip(Record, PackageId(a[0]), EncList(EncPackageId, a[1..]));
      DigestRoundTrip(Record, PackageId(b[0]), EncList(EncPackageId, b[1..]));
      PackageIdsInjective(a[1..], b[1..]);
      forall i | 0 <= i < |a| ensures PackageId(a[i]) == PackageId(b[i]) {
        if i > 0 { assert a[i] == a[1..][i - 1] && b[i] == b[1..][i - 1]; }
      }
    }
  }

  lemma SnapshotContentShape(s: Snapshot)
    ensures |SnapshotContent(s)| == 98 + 44 * |s.packages|
    ensures SnapshotContent(s)[2..46] == EncDigest(Record, BindingId(s.binding))
    ensures SnapshotContent(s)[54..54 + 44 * |s.packages|] == EncList(EncPackageId, s.packages)
    ensures SnapshotContent(s)[54 + 44 * |s.packages|..] == EncDigest(Record, s.ownership)
  {
    hide EncDigest, EncPackageId, BindingId;
    DigestSize(Record, BindingId(s.binding));
    DigestSize(Record, s.ownership);
    PackageIdsSize(s.packages);
    var head := EncU16(SCHEMA);
    var target := EncDigest(Record, BindingId(s.binding));
    var count := EncU64(|s.packages|);
    var list := EncList(EncPackageId, s.packages);
    var last := EncDigest(Record, s.ownership);
    assert SnapshotContent(s) == head + target + count + list + last;
  }

  lemma SnapshotContentInjective(a: Snapshot, b: Snapshot)
    requires SnapshotContent(a) == SnapshotContent(b)
    ensures BindingId(a.binding) == BindingId(b.binding) && |a.packages| == |b.packages|
    ensures forall i :: 0 <= i < |a.packages| ==> PackageId(a.packages[i]) == PackageId(b.packages[i])
    ensures a.ownership == b.ownership
  {
    hide SnapshotContent, EncDigest, PackageId, BindingId, EncPackageId;
    SnapshotContentShape(a);
    SnapshotContentShape(b);
    DigestInjective(BindingId(a.binding), BindingId(b.binding));
    DigestInjective(a.ownership, b.ownership);
    PackageIdsInjective(a.packages, b.packages);
  }

  lemma {:induction false} PackagesBind(a: seq<Package>, b: seq<Package>)
    requires ValidPackages(a) && ValidPackages(b) && |a| == |b| && a != b
    requires forall i :: 0 <= i < |a| ==> PackageId(a[i]) == PackageId(b[i])
    ensures Colliding(PackagesPair(a, b))
  {
    hide ValidPackage, PackageId, PackagePair;
    if a[0] != b[0] {
      PackageBinds(a[0], b[0]);
    } else {
      assert a == [a[0]] + a[1..] && b == [b[0]] + b[1..];
      forall i | 0 <= i < |a| - 1 ensures PackageId(a[1..][i]) == PackageId(b[1..][i]) {
        assert a[1..][i] == a[i + 1] && b[1..][i] == b[i + 1];
      }
      PackagesBind(a[1..], b[1..]);
    }
  }

  /** Snapshots with one identity have the same binding, packages, index and
      inventory, or a collision is exhibited at the level where they part. */
  lemma SnapshotBinds(a: Snapshot, b: Snapshot)
    requires ValidSnapshot(a) && ValidSnapshot(b) && a.identity == b.identity && a != b
    ensures Colliding(SnapshotPair(a, b))
  {
    hide SnapshotContent, PackageId, BindingId, PackagesPair, BindingPair, Identify, MakeSnapshot, ValidPackage;
    SnapshotSorted(a);
    SnapshotSorted(b);
    if SnapshotContent(a) == SnapshotContent(b) {
      SnapshotContentInjective(a, b);
      if a.binding != b.binding {
        BindingBinds(a.binding, b.binding);
      } else {
        assert a.packages != b.packages;
        PackagesBind(a.packages, b.packages);
      }
    } else {
      SnapshotIdIs(a);
      SnapshotIdIs(b);
      DifferentBodies(InstalledSnapshot, SnapshotContent(a), SnapshotContent(b));
    }
  }

  // ---- the ownership inventory -----------------------------------------------------------

  function OwnershipPair(a: seq<Group>, b: seq<Group>): (Bytes, Bytes) {
    (Preimage(OwnershipInventory, EncVector(EncGroup, a)), Preimage(OwnershipInventory, EncVector(EncGroup, b)))
  }

  function ParseGroup(s: Bytes): Parsed<Group> {
    var (path, s) :- ParseBytes(s);
    var (owners, s) :- ParseVector(DigestParse(Record), NO_LIMIT, s);
    Parsed(Group(path, owners), s)
  }

  /** Lengths that fit in a u64. */
  ghost predicate GroupFits(g: Group) { Sized(g.path) && Sized(g.owners) }

  lemma GroupInverse(g: Group)
    requires GroupFits(g)
    ensures Inverse(EncGroup, ParseGroup, g) && |EncGroup(g)| >= 1
  {
    BytesInverse(g.path);
    hide EncBytes, ParseBytes, EncDigest, ParseDigest, EncVector, ParseVector;
    forall rest: Bytes ensures ParseGroup(EncGroup(g) + rest) == Parsed(g, rest) {
      var afterPath := EncVector(DigestEnc(Record), g.owners) + rest;
      assert EncGroup(g) + rest == EncBytes(g.path) + afterPath;
      BytesRoundTrip(g.path, afterPath);
      forall d | d in g.owners ensures Inverse(DigestEnc(Record), DigestParse(Record), d) && |DigestEnc(Record)(d)| >= 1 {
        DigestInverse(Record, d);
      }
      VectorRoundTrip(DigestEnc(Record), DigestParse(Record), NO_LIMIT, g.owners, rest);
    }
  }

  lemma InventoryInjective(a: seq<Group>, b: seq<Group>)
    requires Sized(a) && Sized(b) && (forall g :: g in a || g in b ==> GroupFits(g))
    requires EncVector(EncGroup, a) == EncVector(EncGroup, b)
    ensures a == b
  {
    hide EncGroup, ParseGroup, EncVector, ParseVector, GroupFits;
    forall g | g in a || g in b ensures Inverse(EncGroup, ParseGroup, g) && |EncGroup(g)| >= 1 { GroupInverse(g); }
    assert EncVector(EncGroup, a) + [] == EncVector(EncGroup, a) && EncVector(EncGroup, b) + [] == EncVector(EncGroup, b);
    VectorRoundTrip(EncGroup, ParseGroup, NO_LIMIT, a, []);
    VectorRoundTrip(EncGroup, ParseGroup, NO_LIMIT, b, []);
  }

  /** Inventories with one identity have the same paths with the same owners, or two
      named preimages collide. */
  lemma OwnershipBinds(a: seq<Group>, b: seq<Group>)
    requires Sized(a) && Sized(b) && (forall g :: g in a || g in b ==> GroupFits(g))
    requires OwnershipId(a) == OwnershipId(b) && a != b
    ensures Colliding(OwnershipPair(a, b))
  {
    hide EncVector, EncGroup, Identify, GroupFits;
    if EncVector(EncGroup, a) == EncVector(EncGroup, b) { InventoryInjective(a, b); }
    DifferentBodies(OwnershipInventory, EncVector(EncGroup, a), EncVector(EncGroup, b));
  }

  function InventoryOf(s: Snapshot): seq<Group> {
    match SortOwners(ClaimsOf(s.packages))
    case Some(groups) => groups
    case None => []
  }

  /** Snapshots with one ownership identity agree, for every path, on the identities
      that own it, or two named preimages collide. */
  lemma SnapshotOwnershipBinds(s: Snapshot, t: Snapshot)
    requires ValidSnapshot(s) && ValidSnapshot(t) && s.ownership == t.ownership
    requires Sized(s.packages) && Sized(InventoryOf(s)) && Sized(t.packages) && Sized(InventoryOf(t))
    ensures SameOwnership(s.packages, t.packages) || Colliding(OwnershipPair(InventoryOf(s), InventoryOf(t)))
  {
    hide SortOwners, ClaimsOf, OwnershipId, OwnershipPair, ValidPackage, Owned, GroupFits, SnapshotId, IndexOf, InventoryOf;
    SnapshotInventory(s);
    SnapshotInventory(t);
    InventoryFits(s);
    InventoryFits(t);
    if InventoryOf(s) == InventoryOf(t) {
      SameInventory(s.packages, t.packages, InventoryOf(s));
    } else {
      OwnershipBinds(InventoryOf(s), InventoryOf(t));
    }
  }

  lemma SnapshotInventory(s: Snapshot)
    requires ValidSnapshot(s)
    ensures s.ownership == OwnershipId(InventoryOf(s)) && Inventory(s.packages, InventoryOf(s))
  {
    hide SortOwners, ClaimsOf, OwnershipId, ValidPackage, SnapshotId, IndexOf, Inventory;
    SnapshotSorted(s);
    NormalizeFixes(NameKey, s.packages);
    SortedInventory(s.packages);
  }

  lemma {:induction false} ScanIdsSize(packages: seq<Package>, path: Bytes)
    ensures |ScanIds(packages, path)| <= |packages|
  {
    hide OwnsPath, PackageId;
    if packages != [] { ScanIdsSize(packages[..|packages| - 1], path); }
  }

  lemma OwnedPathFits(packages: seq<Package>, path: Bytes, owner: Digest)
    requires ValidPackages(packages) && Owned(packages, path, owner)
    ensures Sized(path)
  {
    hide PackageId, ValidControl;
    var p :| p in packages && OwnsPath(p, path) && PackageId(p) == owner;
    assert ValidPackage(p);
  }

  /** The paths are those of valid entries, and no path has more owners than there are
      packages. */
  lemma InventoryFits(s: Snapshot)
    requires ValidSnapshot(s) && Sized(s.packages)
    ensures forall g :: g in InventoryOf(s) ==> GroupFits(g)
  {
    hide SortOwners, ClaimsOf, ValidPackage, SnapshotId, OwnershipId, IndexOf, Owned, PackageId;
    SnapshotInventory(s);
    SnapshotSorted(s);
    var claims, groups := ClaimsOf(s.packages), InventoryOf(s);
    SortOwnersMeans(claims);
    ClaimsAgree(s.packages, []);
    forall i | 0 <= i < |groups| ensures GroupFits(groups[i]) {
      OwnersInAt(claims, i);
      ClaimsAgree(s.packages, claims[i].path);
      ScanIdsSize(s.packages, claims[i].path);
      NormalizeMeans(DigestKey, claims[i].owners);
      assert groups[i] in groups && groups[i].owners[0] in groups[i].owners;
      OwnedPathFits(s.packages, groups[i].path, groups[i].owners[0]);
    }
  }

  lemma SameInventory(a: seq<Package>, b: seq<Package>, groups: seq<Group>)
    requires Inventory(a, groups) && Inventory(b, groups)
    ensures SameOwnership(a, b)
  {
    hide Owned;
    forall path, owner ensures Owned(a, path, owner) <==> Owned(b, path, owner) {
      if Owned(a, path, owner) {
        var g :| g in groups && g.path == path;
        assert owner in g.owners;
      }
      if Owned(b, path, owner) {
        var g :| g in groups && g.path == path;
        assert owner in g.owners;
      }
    }
  }

  lemma SnapshotIdIs(s: Snapshot)
    ensures SnapshotId(s.binding, s.packages, s.ownership) == Identify(InstalledSnapshot, SnapshotContent(s))
  {
  }

  /** A snapshot refused for a doubly claimed path exhibits a collision. */
  lemma DoubleClaimCollides(packages: seq<Package>)
    requires ValidPackages(packages) && DoubleClaim(packages)
    ensures exists p, q :: p in packages && q in packages && p != q && Colliding(PackagePair(p, q))
  {
    hide ValidPackage, PackageId, OwnsPath, PackagePair;
    var p, q, path :| TwoClaims(packages, p, q, path);
    PackageBinds(p, q);
  }
}
