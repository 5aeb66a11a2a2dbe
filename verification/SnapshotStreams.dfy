/** Snapshot construction and queries as the loops and searches that the library
    runs. */
module SnapshotStreams {
  import opened Core
  import opened Order
  import opened Wire
  import opened Model
  import opened CanonicalRecord
  import opened ReceiptCodec
  import opened Snapshots
  import opened Streams
  import opened ReceiptStreams

  /** Sorts the owners of every path in place and refuses a duplicate claim. */
  method IdentifyOwnership(groups: seq<Group>) returns (id: Option<Digest>)
    ensures id == match SortOwners(groups) case None => None case Some(sorted) => Some(OwnershipId(sorted))
  {
    hide EncGroup, EncU64, Header, SortOwners;
    var record := new ByteSink.CanonicalRecord(OwnershipInventory);
    record.U64(|groups|);
    ghost var start := record.bytes;
    ghost var sorted: seq<Group> := [];
    SortOwnersStart(groups);
    for i := 0 to |groups|
      invariant record.form == Record && |sorted| == i
      invariant SortOwners(groups) == PrependGroups(sorted, SortOwners(groups[i..]))
      invariant record.bytes == start + EncList(EncGroup, sorted)
    {
      var owners := Normalize(DigestKey, groups[i].owners);
      SortOwnersStep(sorted, groups[i..]);
      assert groups[i..][1..] == groups[i + 1..];
      if owners.None? {
        return None;
      }
      ghost var group := Group(groups[i].path, owners.value);
      EncGroupsStep(sorted, group);
      EncodeGroup(record, groups[i].path, owners.value);
      sorted := sorted + [group];
    }
    assert groups[|groups|..] == [];
    SortOwnersEnd(sorted);
    assert record.bytes == Header(OwnershipInventory) + EncVector(EncGroup, sorted);
    id := Some(SHA256(record.bytes));
  }

  lemma SortOwnersStart(groups: seq<Group>)
    ensures PrependGroups([], SortOwners(groups[0..])) == SortOwners(groups)
  {
    assert groups[0..] == groups;
    if SortOwners(groups).Some? { assert [] + SortOwners(groups).value == SortOwners(groups).value; }
  }

  lemma SortOwnersEnd(xs: seq<Group>)
    ensures PrependGroups(xs, SortOwners([])) == Some(xs)
  {
    assert xs + [] == xs;
  }

  lemma EncGroupsStep(xs: seq<Group>, g: Group)
    ensures EncList(EncGroup, xs + [g]) == EncList(EncGroup, xs) + EncGroup(g)
  {
    hide EncGroup;
    assert (xs + [g])[..|xs|] == xs && (xs + [g])[..|xs| + 1] == xs + [g];
    EncListStep(EncGroup, xs + [g], |xs|);
  }

  ghost function PrependGroups(xs: seq<Group>, tail: Option<seq<Group>>): Option<seq<Group>> {
    match tail case None => None case Some(ys) => Some(xs + ys)
  }

  lemma SortOwnersStep(xs: seq<Group>, groups: seq<Group>)
    requires groups != []
    ensures PrependGroups(xs, SortOwners(groups))
         == match Normalize(DigestKey, groups[0].owners)
            case None => None
            case Some(owners) => PrependGroups(xs + [Group(groups[0].path, owners)], SortOwners(groups[1..]))
  {
    var owners := Normalize(DigestKey, groups[0].owners);
    if owners.Some? && SortOwners(groups[1..]).Some? {
      var g, tail := Group(groups[0].path, owners.value), SortOwners(groups[1..]).value;
      assert xs + ([g] + tail) == xs + [g] + tail;
    }
  }

  method EncodeGroup(w: ByteSink, path: Bytes, owners: seq<Digest>)
    requires w.form == Record
    modifies w
    ensures w.bytes == old(w.bytes) + EncGroup(Group(path, owners))
  {
    hide EncBytes, EncVector;
    w.Bytes(path);
    w.Digests(owners);
  }

  method IdentifySnapshot(binding: Binding, packages: seq<Package>, ownership: Digest) returns (id: Digest)
    ensures id == SnapshotId(binding, packages, ownership)
  {
    hide EncPackageId, EncDigest, EncU16, EncU64, Header, BindingId;
    var record := new ByteSink.CanonicalRecord(InstalledSnapshot);
    record.U16(SCHEMA);
    var target := IdentifyBinding(binding);
    record.Digest(target);
    EncodePackageIds(record, packages);
    record.Digest(ownership);
    assert record.bytes == Header(InstalledSnapshot) + SnapshotBody(binding, packages, ownership);
    id := SHA256(record.bytes);
  }

  method EncodePackageIds(w: ByteSink, packages: seq<Package>)
    requires w.form == Record
    modifies w
    ensures w.bytes == old(w.bytes) + EncVector(EncPackageId, packages)
  {
    hide PackageId, EncDigest, EncU64;
    w.U64(|packages|);
    ghost var start := w.bytes;
    for i := 0 to |packages|
      invariant w.bytes == start + EncList(EncPackageId, packages[..i])
    {
      EncListStep(EncPackageId, packages, i);
      var id := IdentifyPackage(packages[i]);
      w.Digest(id);
    }
    assert packages[..|packages|] == packages;
  }

  /** Files every path of one manifest in both maps. */
  method Register(owners: OwnerIndex, claims: seq<Group>, manifest: seq<Entry>, index: nat, identity: Digest)
    returns (newOwners: OwnerIndex, newClaims: seq<Group>)
    ensures newOwners == AddOwners(owners, manifest, index)
    ensures newClaims == ClaimAll(claims, manifest, identity)
  {
    newOwners, newClaims := owners, claims;
    for k := 0 to |manifest|
      invariant newOwners == AddOwners(owners, manifest[..k], index)
      invariant newClaims == ClaimAll(claims, manifest[..k], identity)
    {
      assert manifest[..k + 1][..k] == manifest[..k];
      newOwners := AddOwner(newOwners, manifest[k].path, index);
      newClaims := Claim(newClaims, manifest[k].path, identity);
    }
    assert manifest[..|manifest|] == manifest;
  }

  method Make(binding: Binding, packages: seq<Package>) returns (r: Option<Snapshot>)
    ensures r == MakeSnapshot(binding, packages)
  {
    hide AddOwners, ClaimAll, PackageId, SortOwners, OwnershipId, SnapshotId, SortBy;
    var sorted := SortBy(NameKey, packages);
    SortMembers(NameKey, packages);
    var owners: OwnerIndex := map[];
    var claims: seq<Group> := [];
    for index := 0 to |sorted|
      invariant AllBoundTo(binding, sorted[..index])
      invariant DistinctNeighbours(NameKey, sorted[..index])
      invariant owners == IndexOf(sorted[..index]) && claims == ClaimsOf(sorted[..index])
    {
      var package := sorted[index];
      assert sorted[..index + 1] == sorted[..index] + [package];
      assert sorted[..index + 1][..index] == sorted[..index];
      if package.Binding() != binding {
        assert package in sorted;
        return None;
      }
      if index != 0 && sorted[index - 1].Name() == package.Name() {
        assert NameKey(sorted[index - 1]) == NameKey(sorted[index]);
        return None;
      }
      var identity := IdentifyPackage(package);
      owners, claims := Register(owners, claims, package.Manifest(), index, identity);
    }
    assert sorted[..|sorted|] == sorted;
    var ownership :- IdentifyOwnership(claims);
    var identity := IdentifySnapshot(binding, sorted, ownership);
    return Some(Snapshot(identity, ownership, binding, sorted, owners));
  }

  // ---- queries -------------------------------------------------------------------

  /** The package of that name, by a linear scan. */
  function Lookup(packages: seq<Package>, name: Bytes): Option<Package> {
    if packages == [] then None
    else if packages[0].Name() == name then Some(packages[0])
    else Lookup(packages[1..], name)
  }

  lemma {:induction false} LookupAt(packages: seq<Package>, k: nat)
    requires k < |packages| && forall i :: 0 <= i < k ==> packages[i].Name() != packages[k].Name()
    ensures Lookup(packages, packages[k].Name()) == Some(packages[k])
  {
    if k > 0 { LookupAt(packages[1..], k - 1); }
  }

  lemma {:induction false} LookupNone(packages: seq<Package>, name: Bytes)
    ensures Lookup(packages, name).None? <==> forall p :: p in packages ==> p.Name() != name
    ensures Lookup(packages, name).Some? ==>
              Lookup(packages, name).value in packages && Lookup(packages, name).value.Name() == name
  {
    if packages != [] {
      LookupNone(packages[1..], name);
      assert forall p :: p in packages <==> p == packages[0] || p in packages[1..];
    }
  }

  /** Binary search by name finds what a linear scan finds. */
  method FindPackage(s: Snapshot, name: Bytes) returns (found: Option<Package>)
    requires Strict(NameKey, s.packages)
    ensures found == Lookup(s.packages, name)
  {
    var k := LowerBound(NameKey, s.packages, name);
    if k == |s.packages| || s.packages[k].Name() != name {
      forall p | p in s.packages ensures p.Name() != name {
        var i :| 0 <= i < |s.packages| && s.packages[i] == p;
        LessTotal(NameKey(p), name);
        if k < i { LessTotal(NameKey(s.packages[k]), name); LessTotal(NameKey(p), NameKey(s.packages[k])); }
      }
      LookupNone(s.packages, name);
      return None;
    }
    forall i | 0 <= i < k ensures s.packages[i].Name() != name { LessTotal(NameKey(s.packages[i]), name); }
    LookupAt(s.packages, k);
    return Some(s.packages[k]);
  }

  /** Binary search of a manifest, which is sorted by path. */
  method OwnsByName(p: Package, path: Bytes) returns (owns: bool)
    requires Strict(PathKey, p.Manifest())
    ensures owns <==> OwnsPath(p, path)
  {
    var manifest := p.Manifest();
    var k := LowerBound(PathKey, manifest, path);
    owns := k < |manifest| && manifest[k].path == path;
    if owns {
      assert manifest[k] in manifest;
    } else {
      forall e | e in manifest ensures e.path != path {
        var i :| 0 <= i < |manifest| && manifest[i] == e;
        LessTotal(PathKey(e), path);
        if k < i { LessTotal(PathKey(manifest[k]), path); LessTotal(PathKey(e), PathKey(manifest[k])); }
      }
    }
  }

  /** The stored index at a path is the scan of the packages. */
  lemma IndexedOwners(s: Snapshot, path: Bytes)
    requires ValidSnapshot(s)
    ensures Claimants(s.owners, path) == Scan(s.packages, path)
    ensures path in s.owners <==> Scan(s.packages, path) != []
    ensures forall k :: k in Scan(s.packages, path) <==> 0 <= k < |s.packages| && OwnsPath(s.packages[k], path)
    ensures forall i, j :: 0 <= i < j < |Scan(s.packages, path)| ==> Scan(s.packages, path)[i] < Scan(s.packages, path)[j]
    ensures Strict(NameKey, s.packages)
  {
    hide OwnsPath, ValidSnapshot, ValidPackages, IndexOf, Scan, ClaimsOf, SortOwners, Strict, AllBoundTo;
    SnapshotSorted(s);
    IndexAgrees(s.packages, path);
    ScanMeans(s.packages, path);
  }

  /** Exactly the packages whose manifest has the path, once each, in name order. */
  method Owners(s: Snapshot, path: Bytes) returns (result: seq<Package>)
    requires ValidSnapshot(s)
    ensures |result| == |Scan(s.packages, path)|
    ensures forall k :: 0 <= k < |result| ==> Scan(s.packages, path)[k] < |s.packages| && result[k] == s.packages[Scan(s.packages, path)[k]]
    ensures forall p :: p in result <==> p in s.packages && OwnsPath(p, path)
    ensures Strict(NameKey, result)
  {
    hide OwnsPath, ValidSnapshot, Scan;
    IndexedOwners(s, path);
    ghost var scan := Scan(s.packages, path);
    result := [];
    assert forall k :: 0 <= k < |scan| ==> scan[k] in scan;
    if path in s.owners {
      var indices := s.owners[path];
      assert indices == scan;
      for k := 0 to |indices|
        invariant |result| == k && forall i :: 0 <= i < k ==> result[i] == s.packages[indices[i]]
      {
        result := result + [s.packages[indices[k]]];
      }
    } else {
      assert scan == [];
    }
    OwnersAreScanned(s.packages, path, scan, result);
  }

  lemma OwnersAreScanned(packages: seq<Package>, path: Bytes, scan: seq<nat>, result: seq<Package>)
    requires forall k :: k in scan <==> 0 <= k < |packages| && OwnsPath(packages[k], path)
    requires forall i, j :: 0 <= i < j < |scan| ==> scan[i] < scan[j]
    requires |result| == |scan|
    requires forall k :: 0 <= k < |scan| ==> scan[k] < |packages| && result[k] == packages[scan[k]]
    requires Strict(NameKey, packages)
    ensures forall p :: p in result <==> p in packages && OwnsPath(p, path)
    ensures Strict(NameKey, result)
  {
    hide OwnsPath;
    forall p | p in packages && OwnsPath(p, path) ensures p in result {
      var i :| 0 <= i < |packages| && packages[i] == p;
      assert i in scan;
      var k :| 0 <= k < |scan| && scan[k] == i;
      assert result[k] == p;
    }
    forall p | p in result ensures p in packages && OwnsPath(p, path) {
      var k :| 0 <= k < |result| && result[k] == p;
      assert scan[k] in scan;
    }
  }

  function IsOwned(s: Snapshot, path: Bytes): bool { path in s.owners }

  /** A path is owned iff some package's own search finds it. */
  lemma IsOwnedAgrees(s: Snapshot, path: Bytes)
    requires ValidSnapshot(s)
    ensures IsOwned(s, path) <==> exists p :: p in s.packages && OwnsPath(p, path)
  {
    hide OwnsPath, ValidSnapshot, Scan;
    IndexedOwners(s, path);
    if IsOwned(s, path) {
      assert Scan(s.packages, path)[0] in Scan(s.packages, path);
    }
    if p :| p in s.packages && OwnsPath(p, path) {
      var i :| 0 <= i < |s.packages| && s.packages[i] == p;
      assert i in Scan(s.packages, path);
    }
  }
}
