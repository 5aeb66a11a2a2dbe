/** Complete installed-state snapshots: construction, identities and the
    path-to-owner index. */
module Snapshots {
  import opened Core
  import opened Order
  import opened Wire
  import opened Model
  import opened CanonicalRecord
  import opened ReceiptCodec

  type OwnerIndex = map<Bytes, seq<nat>>

  /** One path of the ownership inventory with the identities claiming it. */
  datatype Group = Group(path: Bytes, owners: seq<Digest>)

  datatype Snapshot = Snapshot(identity: Digest, ownership: Digest, binding: Binding,
                               packages: seq<Package>, owners: OwnerIndex)

  // ---- the two maps that construction fills ----------------------------------------

  function Claimants(index: OwnerIndex, path: Bytes): seq<nat> { if path in index then index[path] else [] }

  function AddOwner(index: OwnerIndex, path: Bytes, owner: nat): OwnerIndex {
    index[path := Claimants(index, path) + [owner]]
  }

  function AddOwners(index: OwnerIndex, manifest: seq<Entry>, owner: nat): OwnerIndex {
    if manifest == [] then index
    else
      var last := |manifest| - 1;
      AddOwner(AddOwners(index, manifest[..last], owner), manifest[last].path, owner)
  }

  function IndexOf(packages: seq<Package>): OwnerIndex {
    if packages == [] then map[]
    else
      var last := |packages| - 1;
      AddOwners(IndexOf(packages[..last]), packages[last].Manifest(), last)
  }

  /** push_back on the entry of an ordered map, which is created when missing. */
  function Claim(groups: seq<Group>, path: Bytes, owner: Digest): seq<Group> {
    if groups == [] || Less(path, groups[0].path) then [Group(path, [owner])] + groups
    else if groups[0].path == path then [Group(path, groups[0].owners + [owner])] + groups[1..]
    else [groups[0]] + Claim(groups[1..], path, owner)
  }

  function ClaimAll(groups: seq<Group>, manifest: seq<Entry>, owner: Digest): seq<Group> {
    if manifest == [] then groups
    else
      var last := |manifest| - 1;
      Claim(ClaimAll(groups, manifest[..last], owner), manifest[last].path, owner)
  }

  function ClaimsOf(packages: seq<Package>): seq<Group> {
    if packages == [] then []
    else
      var last := |packages| - 1;
      ClaimAll(ClaimsOf(packages[..last]), packages[last].Manifest(), PackageId(packages[last]))
  }

  // ---- identities --------------------------------------------------------------------

  function DigestKey(d: Digest): seq<int> { d }

  /** Sorts the owners of every path; None when one owner claims a path twice. */
  function SortOwners(groups: seq<Group>): Option<seq<Group>> {
    if groups == [] then Some([])
    else
      var owners :- Normalize(DigestKey, groups[0].owners);
      var tail :- SortOwners(groups[1..]);
      Some([Group(groups[0].path, owners)] + tail)
  }

  function EncGroup(g: Group): Bytes { EncBytes(g.path) + EncVector(DigestEnc(Record), g.owners) }

  function OwnershipId(groups: seq<Group>): Digest {
    Identify(OwnershipInventory, EncVector(EncGroup, groups))
  }

  function EncPackageId(p: Package): Bytes { EncDigest(Record, PackageId(p)) }

  function SnapshotBody(binding: Binding, packages: seq<Package>, ownership: Digest): Bytes {
    EncU16(SCHEMA) + EncDigest(Record, BindingId(binding)) + EncVector(EncPackageId, packages)
    + EncDigest(Record, ownership)
  }

  function SnapshotId(binding: Binding, packages: seq<Package>, ownership: Digest): Digest {
    Identify(InstalledSnapshot, SnapshotBody(binding, packages, ownership))
  }

  // ---- construction -------------------------------------------------------------------

  predicate AllBoundTo(binding: Binding, packages: seq<Package>) {
    forall p :: p in packages ==> p.Binding() == binding
  }

  function MakeSnapshot(binding: Binding, packages: seq<Package>): Option<Snapshot> {
    if !AllBoundTo(binding, packages) then None
    else
      var sorted :- Normalize(NameKey, packages);
      var groups :- SortOwners(ClaimsOf(sorted));
      var ownership := OwnershipId(groups);
      Some(Snapshot(SnapshotId(binding, sorted, ownership), ownership, binding, sorted, IndexOf(sorted)))
  }

  ghost predicate ValidPackages(packages: seq<Package>) { forall p :: p in packages ==> ValidPackage(p) }

  /** Snapshots exist only as results of the constructor. */
  ghost predicate ValidSnapshot(s: Snapshot) {
    ValidPackages(s.packages) && MakeSnapshot(s.binding, s.packages) == Some(s)
  }

  lemma MadeSnapshot(binding: Binding, packages: seq<Package>)
    requires ValidPackages(packages) && MakeSnapshot(binding, packages).Some?
    ensures var s := MakeSnapshot(binding, packages).value;
            && ValidSnapshot(s) && s.binding == binding
            && multiset(s.packages) == multiset(packages) && |s.packages| == |packages|
            && Strict(NameKey, s.packages)
  {
    hide Normalize, SortOwners, ClaimsOf, IndexOf, OwnershipId, SnapshotId, ValidPackage, Strict;
    var s := MakeSnapshot(binding, packages).value;
    NormalizeMeans(NameKey, packages);
    NormalizeMembers(NameKey, packages);
    NormalizeFixes(NameKey, s.packages);
  }

  lemma SnapshotSorted(s: Snapshot)
    requires ValidSnapshot(s)
    ensures ValidPackages(s.packages) && AllBoundTo(s.binding, s.packages)
    ensures Strict(NameKey, s.packages)
    ensures s.owners == IndexOf(s.packages)
    ensures SortOwners(ClaimsOf(s.packages)).Some?
    ensures s.ownership == OwnershipId(SortOwners(ClaimsOf(s.packages)).value)
    ensures s.identity == SnapshotId(s.binding, s.packages, s.ownership)
  {
    hide ValidPackage, IndexOf, ClaimsOf, SortOwners, OwnershipId, SnapshotId;
    NormalizeMeans(NameKey, s.packages);
    NormalizeFixes(NameKey, s.packages);
  }

  /** Construction succeeds or fails alike, with one result, on every arrangement
      of the packages. */
  lemma MakeSnapshotIgnoresOrder(binding: Binding, a: seq<Package>, b: seq<Package>)
    requires multiset(a) == multiset(b)
    ensures MakeSnapshot(binding, a) == MakeSnapshot(binding, b)
  {
    NormalizeIgnoresOrder(NameKey, a, b);
    assert forall p :: p in a <==> p in multiset(a);
    assert forall p :: p in b <==> p in multiset(b);
  }

  // ---- the index agrees with a scan of the packages ------------------------------------------

  ghost predicate HasPath(manifest: seq<Entry>, path: Bytes) { exists e :: e in manifest && e.path == path }

  ghost predicate OwnsPath(p: Package, path: Bytes) { HasPath(p.Manifest(), path) }

  /** The positions of the packages whose manifest has the path, in order. */
  ghost function Scan(packages: seq<Package>, path: Bytes): seq<nat> {
    if packages == [] then []
    else
      var last := |packages| - 1;
      Scan(packages[..last], path) + if OwnsPath(packages[last], path) then [last] else []
  }

  ghost function ScanIds(packages: seq<Package>, path: Bytes): seq<Digest> {
    if packages == [] then []
    else
      var last := |packages| - 1;
      ScanIds(packages[..last], path) + if OwnsPath(packages[last], path) then [PackageId(packages[last])] else []
  }

  ghost predicate OnePathEach(manifest: seq<Entry>) {
    forall i, j :: 0 <= i < j < |manifest| ==> manifest[i].path != manifest[j].path
  }

  lemma ManifestPaths(p: Package)
    requires ValidPackage(p)
    ensures OnePathEach(p.Manifest())
  {
    forall i, j | 0 <= i < j < |p.Manifest()| ensures p.Manifest()[i].path != p.Manifest()[j].path {
      LessTotal(PathKey(p.Manifest()[i]), PathKey(p.Manifest()[j]));
    }
  }

  lemma {:induction false} AddOwnersAt(index: OwnerIndex, manifest: seq<Entry>, owner: nat, path: Bytes)
    requires OnePathEach(manifest)
    ensures var more := AddOwners(index, manifest, owner);
            if HasPath(manifest, path)
            then path in more && more[path] == Claimants(index, path) + [owner]
            else Claimants(more, path) == Claimants(index, path) && (path in more <==> path in index)
  {
    if manifest != [] {
      var last := |manifest| - 1;
      AddOwnersAt(index, manifest[..last], owner, path);
      if manifest[last].path == path {
        assert forall e :: e in manifest[..last] ==> e.path != path;
        assert manifest[last] in manifest;
      } else if HasPath(manifest, path) {
        var e :| e in manifest && e.path == path;
        assert e in manifest[..last];
      } else {
        assert forall e :: e in manifest[..last] ==> e in manifest;
      }
    }
  }

  lemma {:induction false} IndexAgrees(packages: seq<Package>, path: Bytes)
    requires ValidPackages(packages)
    ensures Claimants(IndexOf(packages), path) == Scan(packages, path)
    ensures path in IndexOf(packages) <==> Scan(packages, path) != []
  {
    hide ValidPackage, AddOwners, HasPath;
    if packages != [] {
      var last := |packages| - 1;
      assert forall p :: p in packages[..last] ==> p in packages;
      IndexAgrees(packages[..last], path);
      ManifestPaths(packages[last]);
      AddOwnersAt(IndexOf(packages[..last]), packages[last].Manifest(), last, path);
    }
  }

  /** `owners(path)` names exactly the packages whose manifest has the path, once
      each and in name order. */
  lemma {:induction false} ScanMeans(packages: seq<Package>, path: Bytes)
    ensures forall k :: k in Scan(packages, path) <==> 0 <= k < |packages| && OwnsPath(packages[k], path)
    ensures forall i, j :: 0 <= i < j < |Scan(packages, path)| ==> Scan(packages, path)[i] < Scan(packages, path)[j]
  {
    hide OwnsPath;
    if packages != [] {
      var last := |packages| - 1;
      var before := Scan(packages[..last], path);
      ScanMeans(packages[..last], path);
      assert forall i :: 0 <= i < |before| ==> before[i] in before;
    }
  }

  // ---- the ownership inventory ------------------------------------------------------------------

  function GroupKey(g: Group): seq<int> { g.path }

  function OwnersIn(groups: seq<Group>, path: Bytes): seq<Digest> {
    if groups == [] then []
    else if groups[0].path == path then groups[0].owners
    else OwnersIn(groups[1..], path)
  }

  lemma {:induction false} ClaimKeeps(groups: seq<Group>, path: Bytes, owner: Digest, other: Bytes)
    requires Strict(GroupKey, groups)
    ensures Strict(GroupKey, Claim(groups, path, owner))
    ensures forall g :: g in Claim(groups, path, owner) ==> g.path == path || exists h :: h in groups && h.path == g.path
    ensures OwnersIn(Claim(groups, path, owner), other)
         == OwnersIn(groups, other) + if other == path then [owner] else []
  {
    if groups == [] {
    } else if Less(path, groups[0].path) {
      forall j | 0 < j < |groups| ensures Less(path, groups[j].path) {
        LessTransitive(path, GroupKey(groups[0]), GroupKey(groups[j]));
      }
      AbsentBelow(groups, path);
      LessTotal(path, groups[0].path);
    } else if groups[0].path == path {
    } else {
      LessTotal(path, groups[0].path);
      ClaimKeeps(groups[1..], path, owner, other);
      var tail := Claim(groups[1..], path, owner);
      forall j | 0 <= j < |tail| ensures Less(groups[0].path, tail[j].path) {
        if tail[j].path != path {
          var h :| h in groups[1..] && h.path == tail[j].path;
          assert Less(GroupKey(groups[0]), GroupKey(h));
        }
      }
    }
  }

  lemma {:induction false} AbsentBelow(groups: seq<Group>, path: Bytes)
    requires forall g :: g in groups ==> Less(path, g.path)
    ensures OwnersIn(groups, path) == []
  {
    if groups != [] {
      LessTotal(path, groups[0].path);
      AbsentBelow(groups[1..], path);
    }
  }

  lemma {:induction false} ClaimAllKeeps(groups: seq<Group>, manifest: seq<Entry>, owner: Digest, path: Bytes)
    requires Strict(GroupKey, groups) && OnePathEach(manifest)
    ensures Strict(GroupKey, ClaimAll(groups, manifest, owner))
    ensures OwnersIn(ClaimAll(groups, manifest, owner), path)
         == OwnersIn(groups, path) + if HasPath(manifest, path) then [owner] else []
  {
    if manifest != [] {
      var last := |manifest| - 1;
      ClaimAllKeeps(groups, manifest[..last], owner, path);
      ClaimKeeps(ClaimAll(groups, manifest[..last], owner), manifest[last].path, owner, path);
      assert manifest[last] in manifest;
      if manifest[last].path == path {
        assert forall e :: e in manifest[..last] ==> e.path != path;
      } else if HasPath(manifest, path) {
        var e :| e in manifest && e.path == path;
        assert e in manifest[..last];
      } else {
        assert forall e :: e in manifest[..last] ==> e in manifest;
      }
    }
  }

  /** The ordered map lists every path once, with the identities of the packages
      that a scan finds to own it. */
  lemma {:induction false} ClaimsAgree(packages: seq<Package>, path: Bytes)
    requires ValidPackages(packages)
    ensures Strict(GroupKey, ClaimsOf(packages))
    ensures OwnersIn(ClaimsOf(packages), path) == ScanIds(packages, path)
  {
    hide ValidPackage, ClaimAll, HasPath, PackageId;
    if packages != [] {
      var last := |packages| - 1;
      assert forall p :: p in packages[..last] ==> p in packages;
      ClaimsAgree(packages[..last], path);
      ManifestPaths(packages[last]);
      ClaimAllKeeps(ClaimsOf(packages[..last]), packages[last].Manifest(), PackageId(packages[last]), path);
    }
  }

  // ---- when construction fails ------------------------------------------------------------------

  /** Two packages with one identity claim one path. */
  ghost predicate DoubleClaim(packages: seq<Package>) {
    exists p, q, path :: TwoClaims(packages, p, q, path)
  }

  ghost predicate TwoClaims(packages: seq<Package>, p: Package, q: Package, path: Bytes) {
    p in packages && q in packages && p != q && PackageId(p) == PackageId(q) && OwnsPath(p, path) && OwnsPath(q, path)
  }

  lemma {:induction false} ScanIdsMembers(packages: seq<Package>, path: Bytes)
    ensures forall d :: d in ScanIds(packages, path)
                    <==> exists p :: p in packages && OwnsPath(p, path) && PackageId(p) == d
  {
    hide OwnsPath, PackageId;
    if packages != [] {
      var last := packages[|packages| - 1];
      ScanIdsMembers(packages[..|packages| - 1], path);
      assert forall p :: p in packages <==> p in packages[..|packages| - 1] || p == last;
    }
  }

  lemma DistinctLast<T>(key: T -> seq<int>, s: seq<T>, x: T)
    ensures DistinctKeys(key, s + [x]) <==> DistinctKeys(key, s) && Lacks(key, s, key(x))
  {
    var t := s + [x];
    if DistinctKeys(key, t) {
      forall i, j | 0 <= i < j < |s| ensures key(s[i]) != key(s[j]) { assert t[i] == s[i] && t[j] == s[j]; }
      forall y | y in s ensures key(y) != key(x) {
        var i :| 0 <= i < |s| && s[i] == y;
        assert t[i] == y && t[|s|] == x;
      }
    }
  }

  /** Adding a package of a new name adds exactly its clashes with the others. */
  lemma TwoClaimsStep(before: seq<Package>, last: Package, path: Bytes)
    requires last !in before
    ensures (exists p, q :: TwoClaims(before + [last], p, q, path))
       <==> (exists p, q :: TwoClaims(before, p, q, path))
            || (exists p :: p in before && OwnsPath(last, path) && OwnsPath(p, path) && PackageId(p) == PackageId(last))
  {
    hide OwnsPath, PackageId;
    var packages := before + [last];
    assert forall p :: p in packages <==> p in before || p == last;
    if p, q :| TwoClaims(packages, p, q, path) && p in before && q in before { assert TwoClaims(before, p, q, path); }
    if p, q :| TwoClaims(before, p, q, path) { assert TwoClaims(packages, p, q, path); }
    if p :| p in before && OwnsPath(last, path) && OwnsPath(p, path) && PackageId(p) == PackageId(last) {
      assert TwoClaims(packages, p, last, path);
    }
  }

  lemma {:induction false} ScanIdsDistinct(packages: seq<Package>, path: Bytes)
    requires DistinctKeys(NameKey, packages)
    ensures DistinctKeys(DigestKey, ScanIds(packages, path)) <==> !exists p, q :: TwoClaims(packages, p, q, path)
  {
    hide OwnsPath, PackageId, TwoClaims;
    if packages == [] {
      forall p, q ensures !TwoClaims(packages, p, q, path) { NobodyClaims(p, q, path); }
    } else {
      var before, last := packages[..|packages| - 1], packages[|packages| - 1];
      assert packages == before + [last];
      DistinctLast(NameKey, before, last);
      ScanIdsDistinct(before, path);
      ScanIdsMembers(before, path);
      DistinctLast(DigestKey, ScanIds(before, path), PackageId(last));
      TwoClaimsStep(before, last, path);
      assert last !in before;
      var id := PackageId(last);
      assert ScanIds(packages, path) == if OwnsPath(last, path) then ScanIds(before, path) + [id] else ScanIds(before, path);
      assert Lacks(DigestKey, ScanIds(before, path), DigestKey(id)) <==> id !in ScanIds(before, path);
      assert id in ScanIds(before, path) <==> exists p :: p in before && OwnsPath(p, path) && PackageId(p) == id;
    }
  }

  lemma NobodyClaims(p: Package, q: Package, path: Bytes)
    ensures !TwoClaims([], p, q, path)
  {
  }

  lemma {:induction false} SortOwnersMeans(groups: seq<Group>)
    ensures SortOwners(groups).Some? <==> forall g :: g in groups ==> DistinctKeys(DigestKey, g.owners)
    ensures SortOwners(groups).Some? ==>
              && |SortOwners(groups).value| == |groups|
              && forall i :: 0 <= i < |groups| ==>
                   && SortOwners(groups).value[i].path == groups[i].path
                   && Normalize(DigestKey, groups[i].owners) == Some(SortOwners(groups).value[i].owners)
  {
    if groups != [] {
      NormalizeFails(DigestKey, groups[0].owners);
      SortOwnersMeans(groups[1..]);
      assert forall g :: g in groups <==> g == groups[0] || g in groups[1..];
    }
  }

  lemma {:induction false} OwnersInAt(groups: seq<Group>, i: nat)
    requires Strict(GroupKey, groups) && i < |groups|
    ensures OwnersIn(groups, groups[i].path) == groups[i].owners
  {
    if i > 0 {
      LessTotal(GroupKey(groups[0]), GroupKey(groups[i]));
      OwnersInAt(groups[1..], i - 1);
    }
  }

  lemma {:induction false} OwnersInSome(groups: seq<Group>, path: Bytes) returns (i: nat)
    requires OwnersIn(groups, path) != []
    ensures i < |groups| && groups[i].path == path && groups[i].owners == OwnersIn(groups, path)
  {
    if groups[0].path == path {
      i := 0;
    } else {
      i := OwnersInSome(groups[1..], path);
      i := i + 1;
    }
  }

  lemma {:induction false} NoEmptyGroup(packages: seq<Package>)
    ensures forall g :: g in ClaimsOf(packages) ==> g.owners != []
  {
    hide PackageId;
    if packages != [] {
      var last := |packages| - 1;
      NoEmptyGroup(packages[..last]);
      ClaimAllNonempty(ClaimsOf(packages[..last]), packages[last].Manifest(), PackageId(packages[last]));
    }
  }

  lemma {:induction false} ClaimNonempty(groups: seq<Group>, path: Bytes, owner: Digest)
    requires forall g :: g in groups ==> g.owners != []
    ensures forall g :: g in Claim(groups, path, owner) ==> g.owners != []
  {
    if groups != [] { ClaimNonempty(groups[1..], path, owner); }
  }

  lemma {:induction false} ClaimAllNonempty(groups: seq<Group>, manifest: seq<Entry>, owner: Digest)
    requires forall g :: g in groups ==> g.owners != []
    ensures forall g :: g in ClaimAll(groups, manifest, owner) ==> g.owners != []
  {
    if manifest != [] {
      var last := |manifest| - 1;
      ClaimAllNonempty(groups, manifest[..last], owner);
      ClaimNonempty(ClaimAll(groups, manifest[..last], owner), manifest[last].path, owner);
    }
  }

  lemma ClaimsSucceed(packages: seq<Package>)
    requires ValidPackages(packages) && DistinctKeys(NameKey, packages)
    ensures SortOwners(ClaimsOf(packages)).Some? <==> !DoubleClaim(packages)
  {
    hide ValidPackage, ClaimsOf, OwnsPath, PackageId, SortOwners;
    var groups := ClaimsOf(packages);
    SortOwnersMeans(groups);
    ClaimsAgree(packages, []);
    forall i | 0 <= i < |groups|
      ensures DistinctKeys(DigestKey, groups[i].owners) <==> !exists p, q :: TwoClaims(packages, p, q, groups[i].path)
    {
      ClaimsAgree(packages, groups[i].path);
      OwnersInAt(groups, i);
      ScanIdsDistinct(packages, groups[i].path);
    }
    if DoubleClaim(packages) {
      var p, q, path :| TwoClaims(packages, p, q, path);
      ScanIdsMembers(packages, path);
      ClaimsAgree(packages, path);
      assert PackageId(p) in ScanIds(packages, path);
      var i := OwnersInSome(groups, path);
    }
  }

  /** Construction succeeds exactly when every package is bound to the target, no
      two share a name, and no path is claimed twice under one identity. */
  lemma SnapshotMade(binding: Binding, packages: seq<Package>)
    requires ValidPackages(packages)
    ensures MakeSnapshot(binding, packages).Some?
       <==> AllBoundTo(binding, packages) && DistinctKeys(NameKey, packages) && !DoubleClaim(packages)
  {
    hide ValidPackage, ClaimsOf, OwnsPath, PackageId, SortOwners, OwnershipId, SnapshotId, IndexOf;
    NormalizeFails(NameKey, packages);
    if Normalize(NameKey, packages).Some? {
      var sorted := Normalize(NameKey, packages).value;
      NormalizeMeans(NameKey, packages);
      NormalizeMembers(NameKey, packages);
      NormalizeFixes(NameKey, sorted);
      NormalizeFails(NameKey, sorted);
      ClaimsSucceed(sorted);
      assert DoubleClaim(sorted) <==> DoubleClaim(packages) by {
        forall p, q, path ensures TwoClaims(sorted, p, q, path) <==> TwoClaims(packages, p, q, path) { }
      }
    }
  }

  // ---- the inventory depends on the relation alone ------------------------------------------------

  ghost predicate Owned(packages: seq<Package>, path: Bytes, owner: Digest) {
    exists p :: p in packages && OwnsPath(p, path) && PackageId(p) == owner
  }

  ghost predicate SameOwnership(a: seq<Package>, b: seq<Package>) {
    forall path, owner :: Owned(a, path, owner) <==> Owned(b, path, owner)
  }

  ghost predicate Inventory(packages: seq<Package>, groups: seq<Group>) {
    && Strict(GroupKey, groups)
    && (forall g :: g in groups ==> g.owners != [] && Strict(DigestKey, g.owners))
    && (forall g, d :: g in groups ==> (d in g.owners <==> Owned(packages, g.path, d)))
    && (forall path, d :: Owned(packages, path, d) ==> exists g :: g in groups && g.path == path)
  }

  lemma SortedInventory(packages: seq<Package>)
    requires ValidPackages(packages) && SortOwners(ClaimsOf(packages)).Some?
    ensures Inventory(packages, SortOwners(ClaimsOf(packages)).value)
  {
    hide ValidPackage, ClaimsOf, OwnsPath, PackageId, SortOwners;
    var claims := ClaimsOf(packages);
    var groups := SortOwners(claims).value;
    SortOwnersMeans(claims);
    ClaimsAgree(packages, []);
    NoEmptyGroup(packages);
    forall i, j | 0 <= i < j < |groups| ensures Less(GroupKey(groups[i]), GroupKey(groups[j])) {
      assert Less(GroupKey(claims[i]), GroupKey(claims[j]));
    }
    forall i | 0 <= i < |groups|
      ensures groups[i].owners != [] && Strict(DigestKey, groups[i].owners)
      ensures forall d :: d in groups[i].owners <==> Owned(packages, groups[i].path, d)
    {
      NormalizeMeans(DigestKey, claims[i].owners);
      NormalizeMembers(DigestKey, claims[i].owners);
      OwnersInAt(claims, i);
      ClaimsAgree(packages, claims[i].path);
      ScanIdsMembers(packages, claims[i].path);
      assert claims[i] in claims;
    }
    forall path, d | Owned(packages, path, d) ensures exists g :: g in groups && g.path == path {
      ClaimsAgree(packages, path);
      ScanIdsMembers(packages, path);
      assert d in ScanIds(packages, path);
      var i := OwnersInSome(claims, path);
      assert groups[i] in groups;
    }
  }

  lemma InventoryMember(a: seq<Package>, g: Group, b: seq<Package>, groups: seq<Group>)
    requires g.owners != [] && Strict(DigestKey, g.owners) && forall d :: d in g.owners <==> Owned(a, g.path, d)
    requires Inventory(b, groups) && SameOwnership(a, b)
    ensures g in groups
  {
    hide Owned;
    assert Owned(a, g.path, g.owners[0]) && Owned(b, g.path, g.owners[0]);
    var h :| h in groups && h.path == g.path;
    assert forall d :: d in h.owners <==> d in g.owners;
    StrictByMembers(DigestKey, g.owners, h.owners);
  }

  /** The ownership identity is a function of the path-to-identity relation. */
  lemma OwnershipByRelation(a: seq<Package>, b: seq<Package>)
    requires ValidPackages(a) && ValidPackages(b) && SameOwnership(a, b)
    requires SortOwners(ClaimsOf(a)).Some? && SortOwners(ClaimsOf(b)).Some?
    ensures SortOwners(ClaimsOf(a)) == SortOwners(ClaimsOf(b))
  {
    hide ValidPackage, ClaimsOf, SortOwners, Owned;
    var s, t := SortOwners(ClaimsOf(a)).value, SortOwners(ClaimsOf(b)).value;
    SortedInventory(a);
    SortedInventory(b);
    forall g | g in s ensures g in t { InventoryMember(a, g, b, t); }
    forall g | g in t ensures g in s { InventoryMember(b, g, a, s); }
    StrictByMembers(GroupKey, s, t);
  }
}
