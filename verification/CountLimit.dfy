/** A concrete request that the encoder accepts and the decoder refuses: it removes
    2^20 + 1 installed packages.  Each package owns no path. */
module CountLimit {
  import opened Core
  import opened Order
  import opened Wire
  import opened Model
  import opened ReceiptCodec
  import opened Snapshots
  import opened SnapshotStreams
  import opened Requests
  import opened PublicationCodec
  import DigestText
  import PackagePath

  /** Any digest will do. */
  function Zero(): Digest { SHA256([]) }
  const A: Bytes := [97]
  const HUGE: nat := MAXIMUM_COUNT + 1

  /** `a` and eight hexadecimal digits. */
  function NameOf(i: nat): Bytes { A + DigestText.Hex(BE(i, 4)) }

  lemma {:induction false} HexIsAtomic(d: Bytes)
    ensures forall c :: c in DigestText.Hex(d) ==> AtomByte(c) && !PackagePath.Forbidden(c)
  {
    if d != [] { HexIsAtomic(d[1..]); }
  }

  lemma NameShape(i: nat)
    ensures |NameOf(i)| == 9 && IsAtom(NameOf(i), false) && LineSafeText(NameOf(i))
  {
    hide DigestText.Hex, BE;
    HexIsAtomic(BE(i, 4));
    DigestText.HexShape(BE(i, 4));
    forall k | 0 < k < 9 ensures NameOf(i)[k] in DigestText.Hex(BE(i, 4)) {
      assert NameOf(i)[k] == DigestText.Hex(BE(i, 4))[k - 1];
    }
  }

  lemma NamesDistinct(i: nat, j: nat)
    requires i < U32_LIMIT && j < U32_LIMIT && NameOf(i) == NameOf(j)
    ensures i == j
  {
    hide DigestText.Hex, DigestText.UnHex, BE, UnBE;
    assert NameOf(i)[1..] == DigestText.Hex(BE(i, 4)) && NameOf(j)[1..] == DigestText.Hex(BE(j, 4));
    DigestText.UnHexInverts(BE(i, 4));
    DigestText.UnHexInverts(BE(j, 4));
    Widths();
    UnBEInverts(i, 4);
    UnBEInverts(j, 4);
  }

  function Target(): Binding { Binding(Zero(), Zero(), Zero(), Zero(), Zero()) }

  function SourceOf(i: nat): Source {
    Source(Release(Zero(), NameOf(i), A, 1), Metadata(A, None, None, [A]), [], [], [],
           Architectures([], [], A, A), [], Zero())
  }

  function PackageOf(i: nat): Package {
    Package(Receipt(Control(SourceOf(i), ExplicitRequest, 
                            [SourceId(SourceOf(i)), Zero(), Zero(), Zero(), Zero(), Zero(), Zero(), Zero(), Zero(), Zero(), Zero(), Zero(), Zero(), Zero()]),
                    Target(), [], Zero(), Zero(), None))
  }

  lemma PackageOfValid(i: nat)
    ensures ValidPackage(PackageOf(i)) && PackageOf(i).Name() == NameOf(i)
  {
    hide NameOf, SourceId;
    NameShape(i);
  }

  function RemovalOf(i: nat): Delta { Remove(NameOf(i), PackageId(PackageOf(i)), Zero(), Zero()) }

  lemma RemovalSize(i: nat)
    ensures |EncDelta(RemovalOf(i))| == 266
  {
    hide NameOf, PackageId, EncDigest;
    NameShape(i);
    DigestSize(Text, Zero());
    DigestSize(Text, PackageId(PackageOf(i)));
  }

  lemma {:induction false} ListSizeIs<T>(enc: T -> Bytes, xs: seq<T>, size: nat)
    requires forall x :: x in xs ==> |enc(x)| == size
    ensures |EncList(enc, xs)| == |xs| * size
  {
    if xs != [] {
      assert forall x :: x in xs[1..] ==> x in xs;
      ListSizeIs(enc, xs[1..], size);
      assert |xs| * size == |xs[1..]| * size + size;
    }
  }

  function PackagesBelow(n: nat): (r: seq<Package>)
    ensures |r| == n && forall i :: 0 <= i < n ==> r[i] == PackageOf(i)
  {
    if n == 0 then [] else PackagesBelow(n - 1) + [PackageOf(n - 1)]
  }

  function RemovalsBelow(n: nat): (r: seq<Delta>)
    ensures |r| == n && forall i :: 0 <= i < n ==> r[i] == RemovalOf(i)
  {
    if n == 0 then [] else RemovalsBelow(n - 1) + [RemovalOf(n - 1)]
  }

  lemma HugeSnapshot() returns (s: Snapshot)
    ensures ValidSnapshot(s) && s.binding == Target()
    ensures forall i :: 0 <= i < HUGE ==> Lookup(s.packages, NameOf(i)) == Some(PackageOf(i))
  {
    hide PackageOf, NameOf, ValidPackage, PackageId, MakeSnapshot, ValidSnapshot;
    var packages := PackagesBelow(HUGE);
    forall i | 0 <= i < HUGE ensures ValidPackage(packages[i]) && packages[i].Name() == NameOf(i)
                                     && packages[i].Binding() == Target() && packages[i].Manifest() == [] {
      PackageOfValid(i);
      PackageOfFields(i);
    }
    forall i, j | 0 <= i < j < HUGE ensures NameKey(packages[i]) != NameKey(packages[j]) {
      if NameOf(i) == NameOf(j) { NamesDistinct(i, j); }
    }
    SnapshotMade(Target(), packages);
    s := MakeSnapshot(Target(), packages).value;
    MadeSnapshot(Target(), packages);
    forall i | 0 <= i < HUGE ensures Lookup(s.packages, NameOf(i)) == Some(PackageOf(i)) {
      assert packages[i] in packages;
      assert packages[i] in multiset(packages);
      assert packages[i] in multiset(s.packages);
      LookupStrict(s.packages, NameOf(i), packages[i]);
    }
  }

  lemma PackageOfFields(i: nat)
    ensures PackageOf(i).Binding() == Target() && PackageOf(i).Manifest() == []
  {
  }

  lemma RemovalValid(i: nat)
    ensures ValidDelta(RemovalOf(i))
  {
    hide NameOf, PackageId;
    NameShape(i);
  }

  lemma HugeRequest(s: Snapshot) returns (r: Request)
    requires ValidSnapshot(s) && forall i :: 0 <= i < HUGE ==> Lookup(s.packages, NameOf(i)) == Some(PackageOf(i))
    ensures MadeFrom(r, s) && |r.deltas| == HUGE
    ensures forall d :: d in r.deltas ==> exists i :: 0 <= i < HUGE && d == RemovalOf(i)
  {
    hide PackageOf, NameOf, PackageId, ValidSnapshot, Lookup, ValidDelta;
    var deltas := RemovalsBelow(HUGE);
    forall i | 0 <= i < HUGE ensures ValidDelta(deltas[i]) { RemovalValid(i); }
    forall i, j | 0 <= i < j < HUGE ensures DeltaKey(deltas[i]) != DeltaKey(deltas[j]) {
      if NameOf(i) == NameOf(j) { NamesDistinct(i, j); }
    }
    NormalizeFails(DeltaKey, deltas);
    NormalizeMeans(DeltaKey, deltas);
    NormalizeMembers(DeltaKey, deltas);
    var sorted := Normalize(DeltaKey, deltas).value;
    forall d | d in sorted ensures Accepts(s, Some(Zero()), d) && exists i :: 0 <= i < HUGE && d == RemovalOf(i) {
      assert d in deltas;
      var i :| 0 <= i < HUGE && deltas[i] == d;
    }
    r := MakeRequest(s, deltas, Some(Zero())).value;
    MadeRequest(s, deltas, Some(Zero()));
  }

  /** The request encodes well within 1 GiB and then does not decode. */
  lemma EncodedButNotDecodable() returns (s: Snapshot, r: Request, encoding: Bytes)
    ensures ValidSnapshot(s) && MadeFrom(r, s)
    ensures EncodeRequest(r) == Success(encoding) && DecodeRequest(encoding, s) == Failure(LimitExceeded)
  {
    hide PackageOf, NameOf, PackageId, ValidSnapshot, EncDigest, RequestId, BindingId, MakeRequest, RemovalOf, EncDelta,
         DecodeRequest, MadeFrom;
    s := HugeSnapshot();
    r := HugeRequest(s);
    forall d | d in r.deltas ensures |EncDelta(d)| == 266 {
      var i :| 0 <= i < HUGE && d == RemovalOf(i);
      RemovalSize(i);
    }
    ListSizeIs(EncDelta, r.deltas, 266);
    DigestSize(Text, RequestId(r));
    DigestSize(Text, r.expected);
    DigestSize(Text, BindingId(r.binding));
    if r.transaction.Some? { DigestSize(Text, r.transaction.value); }
    assert |RequestTail(r)| <= 8 + HUGE * 266 + 83;
    assert |RequestPayload(r)| <= 10 + 246 + 91 + HUGE * 266;
    encoding := EncodeRequest(r).value;
    RequestDecodes(encoding, s, r);
  }
}
