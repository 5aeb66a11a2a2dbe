/** The canonical generation-v1 records: one target binding, or one complete
    snapshot. */
module GenerationCodec {
  import opened Core
  import opened Order
  import opened Wire
  import opened Model
  import opened SourceStreams
  import opened ReceiptCodec
  import opened Snapshots
  import opened SnapshotStreams
  import opened Streams
  import opened ReceiptStreams

  // pkgstate-binding\0 and pkgstate-snapshot\0
  const BINDING_MAGIC: Bytes := [112, 107, 103, 115, 116, 97, 116, 101, 45, 98, 105, 110, 100, 105, 110, 103, 0]
  const SNAPSHOT_MAGIC: Bytes := [112, 107, 103, 115, 116, 97, 116, 101, 45, 115, 110, 97, 112, 115, 104, 111, 116, 0]

  const STORAGE_VERSION: U16 := 1

  // ---- binding records ----------------------------------------------------------

  function EncodeBindingRecord(b: Binding): Bytes { BINDING_MAGIC + EncU16(STORAGE_VERSION) + EncBinding(Text, b) }

  function ParseBindingRecord(s: Bytes): Parsed<Binding> {
    var (_, s) :- ParseMagic(BINDING_MAGIC, s);
    var (version, s) :- ParseU16(s);
    if version != STORAGE_VERSION then Rejected(UnsupportedVersion) else ParseBinding(Text, s)
  }

  function DecodeBindingRecord(s: Bytes): Option<Binding> {
    match ParseBindingRecord(s)
    case Rejected(_) => None
    case Parsed(b, rest) => if rest == [] && EncodeBindingRecord(b) == s then Some(b) else None
  }

  /** A binding record is accepted exactly when it is the encoding of the answer. */
  lemma BindingRecordExact(s: Bytes, b: Binding)
    ensures DecodeBindingRecord(s) == Some(b) <==> s == EncodeBindingRecord(b)
  {
    hide EncU16, ParseU16, EncBinding, ParseBinding;
    if s == EncodeBindingRecord(b) {
      var afterMagic := EncU16(STORAGE_VERSION) + (EncBinding(Text, b) + []);
      assert s == BINDING_MAGIC + afterMagic;
      TakePrefix(BINDING_MAGIC, afterMagic);
      U16RoundTrip(STORAGE_VERSION, EncBinding(Text, b) + []);
      BindingRoundTrip(Text, b, []);
    }
  }

  method EncodeBindingBytes(b: Binding) returns (bytes: Bytes)
    ensures bytes == EncodeBindingRecord(b)
  {
    hide EncU16, EncBinding;
    var output := new ByteSink.Writer();
    output.Raw(BINDING_MAGIC);
    output.U16(STORAGE_VERSION);
    EncodeBinding(output, b);
    bytes := output.bytes;
  }

  method ReadBindingRecord(r: Reader) returns (answer: Result<Binding>)
    requires r.Valid()
    modifies r
    ensures r.Agrees(ParseBindingRecord(old(r.Rest())), answer)
  {
    hide ParseMagic, ParseU16, ParseBinding;
    var _ :- r.Expect(BINDING_MAGIC);
    var version :- r.U16();
    if version != STORAGE_VERSION {
      return Failure(UnsupportedVersion);
    }
    answer := DecodeBinding(r);
  }

  method DecodeBindingBytes(bytes: Bytes) returns (answer: Result<Binding>)
    ensures answer == match DecodeBindingRecord(bytes) case Some(b) => Success(b) case None => Failure(StoreFailure)
  {
    hide ParseBindingRecord, EncodeBindingRecord, ParseBinding, EncBinding, ParseU16, EncU16, ParseMagic;
    var input := new Reader(bytes, NO_LIMIT);
    ghost var parsed := ParseBindingRecord(bytes);
    var record := ReadBindingRecord(input);
    if record.Failure? {
      assert parsed.Rejected?;
      return Failure(StoreFailure);
    }
    assert parsed == Parsed(record.value, input.Rest());
    if input.position != |bytes| {
      assert input.Rest() != [];
      return Failure(StoreFailure);
    }
    assert input.Rest() == [];
    var canonical := EncodeBindingBytes(record.value);
    if canonical != bytes {
      return Failure(StoreFailure);
    }
    return Success(record.value);
  }

  // ---- snapshot records -----------------------------------------------------------

  function EncPackage(p: Package): Bytes { EncReceipt(p.receipt) }

  function EncodeSnapshot(s: Snapshot): Bytes {
    SNAPSHOT_MAGIC + EncU16(STORAGE_VERSION) + EncU16(SCHEMA) + EncBinding(Text, s.binding)
    + EncVector(EncPackage, s.packages)
  }

  function ParsePackage(binding: Binding, s: Bytes): Parsed<Package> {
    var (receipt, s) :- ParseReceipt(binding, s);
    Parsed(Package(receipt), s)
  }

  function PackageParse(binding: Binding): Bytes -> Parsed<Package> { s => ParsePackage(binding, s) }

  function ParseSnapshot(s: Bytes): Parsed<(Binding, seq<Package>)> {
    var (_, s) :- ParseMagic(SNAPSHOT_MAGIC, s);
    var (version, s) :- ParseU16(s);
    if version != STORAGE_VERSION then Rejected(UnsupportedVersion)
    else
      var (schema, s) :- ParseU16(s);
      if schema != SCHEMA then Rejected(UnsupportedVersion)
      else
        var (binding, s) :- ParseBinding(Text, s);
        var (packages, s) :- ParseVector(PackageParse(binding), NO_LIMIT, s);
        Parsed((binding, packages), s)
  }

  /** Parses all of the bytes, rebuilds the snapshot through its constructor and
      demands that it encodes to the same bytes. */
  function DecodeSnapshot(s: Bytes): Option<Snapshot> {
    match ParseSnapshot(s)
    case Rejected(_) => None
    case Parsed(fields, rest) =>
      if rest != [] then None
      else
        var made :- MakeSnapshot(fields.0, fields.1);
        if EncodeSnapshot(made) == s then Some(made) else None
  }

  lemma PackageInverse(p: Package)
    requires ValidPackage(p)
    ensures Inverse(EncPackage, PackageParse(p.Binding()), p) && |EncPackage(p)| >= 1
  {
    hide EncReceipt, ParseReceipt, ValidReceipt;
    forall rest: Bytes ensures ParsePackage(p.Binding(), EncPackage(p) + rest) == Parsed(p, rest) {
      ReceiptRoundTrip(p.receipt, rest);
    }
    ReceiptNotEmpty(p.receipt);
  }

  lemma ReceiptNotEmpty(r: Receipt)
    ensures |EncReceipt(r)| >= 1
  {
    hide EncControl, EncReceiptTail;
  }

  lemma SnapshotFieldsRoundTrip(s: Snapshot, rest: Bytes)
    requires ValidPackages(s.packages) && AllBoundTo(s.binding, s.packages) && Sized(s.packages)
    ensures ParseSnapshot(EncodeSnapshot(s) + rest) == Parsed((s.binding, s.packages), rest)
  {
    hide EncU16, ParseU16, EncBinding, ParseBinding, EncVector, ParseVector, EncPackage, ParsePackage, ValidPackage;
    var afterBinding := EncVector(EncPackage, s.packages) + rest;
    var afterSchema := EncBinding(Text, s.binding) + afterBinding;
    var afterVersion := EncU16(SCHEMA) + afterSchema;
    var afterMagic := EncU16(STORAGE_VERSION) + afterVersion;
    assert EncodeSnapshot(s) + rest == SNAPSHOT_MAGIC + afterMagic;
    TakePrefix(SNAPSHOT_MAGIC, afterMagic);
    U16RoundTrip(STORAGE_VERSION, afterVersion);
    U16RoundTrip(SCHEMA, afterSchema);
    BindingRoundTrip(Text, s.binding, afterBinding);
    forall p | p in s.packages ensures Inverse(EncPackage, PackageParse(s.binding), p) && |EncPackage(p)| >= 1 {
      PackageInverse(p);
    }
    VectorRoundTrip(EncPackage, PackageParse(s.binding), NO_LIMIT, s.packages, rest);
  }

  lemma PackageParses(binding: Binding, s: Bytes)
    ensures var r := ParsePackage(binding, s); r.Parsed? ==> ValidPackage(r.value) && r.value.Binding() == binding
  {
    hide ParseReceipt, ValidReceipt;
    ReceiptParses(binding, s);
  }

  lemma SnapshotParses(s: Bytes)
    ensures var r := ParseSnapshot(s);
            r.Parsed? ==> ValidPackages(r.value.1) && AllBoundTo(r.value.0, r.value.1) && Sized(r.value.1)
  {
    hide ParseMagic, ParseU16, ParseBinding, ParseVector, ParsePackage, ValidPackage;
    if ParseSnapshot(s).Parsed? {
      var binding := ParseSnapshot(s).value.0;
      var good := (p: Package) => ValidPackage(p) && p.Binding() == binding;
      forall t ensures PackageParse(binding)(t).Parsed? ==> good(PackageParse(binding)(t).value) {
        PackageParses(binding, t);
      }
      var afterSchema := ParseU16(ParseU16(ParseMagic(SNAPSHOT_MAGIC, s).rest).rest).rest;
      var fields := ParseBinding(Text, afterSchema);
      VectorAll(PackageParse(binding), good, NO_LIMIT, fields.rest);
      assert forall p :: p in ParseSnapshot(s).value.1 ==> good(p);
    }
  }

  /** Decoding the encoding of a snapshot gives the snapshot back, with its
      packages, its owner index and its identities. */
  lemma SnapshotRoundTrip(s: Snapshot)
    requires ValidSnapshot(s) && Sized(s.packages)
    ensures DecodeSnapshot(EncodeSnapshot(s)) == Some(s)
  {
    hide EncodeSnapshot, ParseSnapshot, MakeSnapshot;
    assert AllBoundTo(s.binding, s.packages) by { SnapshotSorted(s); }
    SnapshotFieldsRoundTrip(s, []);
    assert EncodeSnapshot(s) + [] == EncodeSnapshot(s);
  }

  /** A byte string is accepted exactly when it is the encoding of a snapshot, and
      the answer is that snapshot. */
  lemma SnapshotExact(bytes: Bytes, s: Snapshot)
    ensures DecodeSnapshot(bytes) == Some(s) <==> ValidSnapshot(s) && Sized(s.packages) && bytes == EncodeSnapshot(s)
  {
    hide EncodeSnapshot, ParseSnapshot, MakeSnapshot, ValidSnapshot;
    if DecodeSnapshot(bytes) == Some(s) {
      SnapshotParses(bytes);
      var fields := ParseSnapshot(bytes).value;
      MadeSnapshot(fields.0, fields.1);
    }
    if ValidSnapshot(s) && Sized(s.packages) && bytes == EncodeSnapshot(s) {
      SnapshotRoundTrip(s);
    }
  }

  /** No record is a proper prefix of another, and distinct snapshots have
      distinct records. */
  lemma SnapshotPrefixFree(a: Snapshot, b: Snapshot, more: Bytes)
    requires ValidSnapshot(a) && ValidSnapshot(b) && Sized(a.packages) && Sized(b.packages)
    requires EncodeSnapshot(a) + more == EncodeSnapshot(b)
    ensures a == b && more == []
  {
    hide EncodeSnapshot, ParseSnapshot;
    assert AllBoundTo(a.binding, a.packages) by { SnapshotSorted(a); }
    assert AllBoundTo(b.binding, b.packages) by { SnapshotSorted(b); }
    SnapshotFieldsRoundTrip(a, more);
    SnapshotFieldsRoundTrip(b, []);
    assert EncodeSnapshot(b) + [] == EncodeSnapshot(b);
    assert MakeSnapshot(a.binding, a.packages) == MakeSnapshot(b.binding, b.packages);
  }

  /** Every proper prefix and every proper extension of a record is refused. */
  lemma CutOrExtendedRefused(s: Snapshot, cut: nat, more: Bytes)
    requires ValidSnapshot(s) && Sized(s.packages)
    ensures cut < |EncodeSnapshot(s)| ==> DecodeSnapshot(EncodeSnapshot(s)[..cut]).None?
    ensures more != [] ==> DecodeSnapshot(EncodeSnapshot(s) + more).None?
  {
    hide EncodeSnapshot, DecodeSnapshot, ValidSnapshot;
    var whole := EncodeSnapshot(s);
    if cut < |whole| && DecodeSnapshot(whole[..cut]).Some? {
      var t := DecodeSnapshot(whole[..cut]).value;
      SnapshotExact(whole[..cut], t);
      assert whole == whole[..cut] + whole[cut..];
      SnapshotPrefixFree(t, s, whole[cut..]);
    }
    if more != [] && DecodeSnapshot(whole + more).Some? {
      var t := DecodeSnapshot(whole + more).value;
      SnapshotExact(whole + more, t);
      SnapshotPrefixFree(s, t, more);
    }
  }

  // ---- the loops -------------------------------------------------------------------

  method EncodePackages(w: ByteSink, xs: seq<Package>)
    requires w.form == Text
    modifies w
    ensures w.bytes == old(w.bytes) + EncVector(EncPackage, xs)
  {
    hide EncReceipt, EncU64;
    w.U64(|xs|);
    ghost var start := w.bytes;
    for i := 0 to |xs|
      invariant w.bytes == start + EncList(EncPackage, xs[..i])
    {
      EncListStep(EncPackage, xs, i);
      EncodeReceipt(w, xs[i].receipt);
    }
    assert xs[..|xs|] == xs;
  }

  method EncodeSnapshotBytes(s: Snapshot) returns (bytes: Bytes)
    ensures bytes == EncodeSnapshot(s)
  {
    hide EncU16, EncBinding, EncVector;
    var output := new ByteSink.Writer();
    output.Raw(SNAPSHOT_MAGIC);
    output.U16(STORAGE_VERSION);
    output.U16(SCHEMA);
    EncodeBinding(output, s.binding);
    EncodePackages(output, s.packages);
    bytes := output.bytes;
  }

  method DecodePackages(r: Reader, binding: Binding) returns (answer: Result<seq<Package>>)
    requires r.Valid() && r.maximumCount == NO_LIMIT
    modifies r
    ensures r.Agrees(ParseVector(PackageParse(binding), r.maximumCount, old(r.Rest())), answer)
  {
    hide ParseReceipt, ParseCount;
    var count :- r.Count();
    var xs: seq<Package> := [];
    ghost var whole := ParseList(PackageParse(binding), count, r.Rest());
    PrependNothing(whole);
    for i := 0 to count
      invariant r.Valid()
      invariant whole == Prepend(xs, ParseList(PackageParse(binding), count - i, r.Rest()))
    {
      ParseListStep(PackageParse(binding), count - i, xs, r.Rest());
      var receipt :- DecodeReceipt(r, binding);
      xs := xs + [Package(receipt)];
    }
    ParseListEnd(PackageParse(binding), xs, r.Rest());
    return Success(xs);
  }

  method ReadSnapshot(r: Reader) returns (answer: Result<(Binding, seq<Package>)>)
    requires r.Valid() && r.maximumCount == NO_LIMIT
    modifies r
    ensures r.Agrees(ParseSnapshot(old(r.Rest())), answer)
  {
    hide ParseMagic, ParseU16, ParseBinding, ParseVector;
    var _ :- r.Expect(SNAPSHOT_MAGIC);
    var version :- r.U16();
    if version != STORAGE_VERSION {
      return Failure(UnsupportedVersion);
    }
    var schema :- r.U16();
    if schema != SCHEMA {
      return Failure(UnsupportedVersion);
    }
    var binding :- DecodeBinding(r);
    var packages :- DecodePackages(r, binding);
    return Success((binding, packages));
  }

  method DecodeSnapshotBytes(bytes: Bytes) returns (answer: Result<Snapshot>)
    ensures answer == match DecodeSnapshot(bytes) case Some(s) => Success(s) case None => Failure(StoreFailure)
  {
    hide ParseSnapshot, MakeSnapshot, EncodeSnapshot;
    var input := new Reader(bytes, NO_LIMIT);
    var fields := ReadSnapshot(input);
    if fields.Failure? || input.position != |bytes| {
      return Failure(StoreFailure);
    }
    var made := Make(fields.value.0, fields.value.1);
    if made.None? {
      return Failure(StoreFailure);
    }
    var canonical := EncodeSnapshotBytes(made.value);
    return if canonical == bytes then Success(made.value) else Failure(StoreFailure);
  }
}
