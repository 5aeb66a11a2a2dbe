/** Request construction and projection as the loops that the library runs. */
module RequestStreams {
  import opened Core
  import opened Order
  import opened Model
  import opened ReceiptCodec
  import opened Snapshots
  import opened SnapshotStreams
  import opened Requests

  /** Checks one delta against the expected snapshot with a binary search. */
  method ValidateAgainstSnapshot(s: Snapshot, transaction: Option<Digest>, d: Delta) returns (ok: bool)
    requires Strict(NameKey, s.packages)
    ensures ok == Accepts(s, transaction, d)
  {
    hide PackageId, Lookup;
    var current := FindPackage(s, d.Name());
    if d.Install? {
      if current.Some? {
        return false;
      }
    } else if current.None? || PackageId(current.value) != d.expected {
      return false;
    }
    if d.Proposed().Some? {
      return d.proposed.Binding() == s.binding && d.proposed.receipt.transaction == transaction;
    }
    return true;
  }

  method MakePublicationRequest(s: Snapshot, deltas: seq<Delta>, transaction: Option<Digest>) returns (r: Option<Request>)
    requires Strict(NameKey, s.packages)
    ensures r == MakeRequest(s, deltas, transaction)
  {
    hide Accepts, SortBy;
    if deltas == [] {
      return None;
    }
    var sorted := SortBy(DeltaKey, deltas);
    if !DistinctNeighbours(DeltaKey, sorted) {
      return None;
    }
    if |sorted| > 1 && transaction.None? {
      return None;
    }
    for i := 0 to |sorted|
      invariant AllAccepted(s, transaction, sorted[..i])
    {
      var ok := ValidateAgainstSnapshot(s, transaction, sorted[i]);
      if !ok {
        assert sorted[i] in sorted;
        return None;
      }
      assert sorted[..i + 1] == sorted[..i] + [sorted[i]];
    }
    assert sorted[..|sorted|] == sorted;
    return Some(Request(s.identity, s.binding, sorted, transaction));
  }

  /** lower_bound is the position that the specification scans for. */
  lemma BoundIsPosition(packages: seq<Package>, name: Bytes, k: nat)
    requires Strict(NameKey, packages) && k <= |packages|
    requires forall i :: 0 <= i < k ==> Less(NameKey(packages[i]), name)
    requires forall i :: k <= i < |packages| ==> !Less(NameKey(packages[i]), name)
    ensures k == Position(packages, name)
  {
    PositionMeans(packages, name);
    var p := Position(packages, name);
    assert p < |packages| ==> NameKey(packages[p]) == packages[p].Name();
    assert k < |packages| ==> NameKey(packages[k]) == packages[k].Name();
  }

  /** One edit of the local vector: insert, assign or erase at the lower bound. */
  method Edit(packages: seq<Package>, d: Delta) returns (edited: Option<seq<Package>>)
    requires Strict(NameKey, packages)
    ensures edited == Apply(packages, d)
  {
    hide PackageId, Strict;
    var position := LowerBound(NameKey, packages, d.Name());
    BoundIsPosition(packages, d.Name(), position);
    var present := position < |packages| && packages[position].Name() == d.Name();
    match d
    case Install(proposed, _, _) =>
      if present {
        return None;
      }
      edited := Some(packages[..position] + [proposed] + packages[position..]);
    case Replace(expected, proposed, _, _) =>
      if !present || PackageId(packages[position]) != expected {
        return None;
      }
      edited := Some(packages[position := proposed]);
    case Remove(_, expected, _, _) =>
      if !present || PackageId(packages[position]) != expected {
        return None;
      }
      edited := Some(packages[..position] + packages[position + 1..]);
  }

  method ProjectPublicationRequest(request: Request, prior: Snapshot) returns (result: Option<Snapshot>)
    requires Strict(NameKey, prior.packages)
    ensures result == Project(request, prior)
  {
    hide Apply, MakeSnapshot;
    if prior.binding != request.binding || prior.identity != request.expected {
      return None;
    }
    var packages := prior.packages;
    assert request.deltas[0..] == request.deltas;
    for i := 0 to |request.deltas|
      invariant Strict(NameKey, packages)
      invariant ApplyAll(prior.packages, request.deltas) == ApplyAll(packages, request.deltas[i..])
    {
      assert request.deltas[i..][0] == request.deltas[i] && request.deltas[i..][1..] == request.deltas[i + 1..];
      var edited := Edit(packages, request.deltas[i]);
      if edited.None? {
        return None;
      }
      ApplyMembers(packages, request.deltas[i]);
      packages := edited.value;
    }
    result := Make(request.binding, packages);
  }
}
