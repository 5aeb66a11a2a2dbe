/** The imperative writers and readers of package source records. */
module SourceStreams {
  import opened Core
  import opened Wire
  import opened Model
  import opened SourceCodec
  import opened Streams

  // ---- writers ------------------------------------------------------------

  method EncodeProvenance(w: ByteSink, p: Provenance)
    modifies w
    ensures w.bytes == old(w.bytes) + EncProvenance(p)
  {
    hide EncBytes, EncU32;
    w.Bytes(p.document);
    w.Bytes(p.path);
    w.U32(p.line);
    w.U32(p.column);
  }

  method EncodeStep(w: ByteSink, x: Step)
    modifies w
    ensures w.bytes == old(w.bytes) + EncStep(x)
  {
    hide EncBytes, EncProvenance;
    w.Bytes(x.profile);
    w.U8(x.kind.Code());
    w.Bytes(x.member);
    EncodeProvenance(w, x.provenance);
  }

  method EncodeSteps(w: ByteSink, xs: seq<Step>)
    modifies w
    ensures w.bytes == old(w.bytes) + EncVector(EncStep, xs)
  {
    hide EncStep, EncU64;
    w.U64(|xs|);
    ghost var start := w.bytes;
    for i := 0 to |xs|
      invariant w.bytes == start + EncList(EncStep, xs[..i])
    {
      EncListStep(EncStep, xs, i);
      EncodeStep(w, xs[i]);
    }
    assert xs[..|xs|] == xs;
  }

  method EncodeOrigin(w: ByteSink, o: Origin)
    modifies w
    ensures w.bytes == old(w.bytes) + EncOrigin(o)
  {
    hide EncProvenance, EncVector;
    EncodeProvenance(w, o.declaration);
    EncodeSteps(w, o.expansion);
  }

  method EncodeOrigins(w: ByteSink, xs: seq<Origin>)
    modifies w
    ensures w.bytes == old(w.bytes) + EncVector(EncOrigin, xs)
  {
    hide EncOrigin, EncU64;
    w.U64(|xs|);
    ghost var start := w.bytes;
    for i := 0 to |xs|
      invariant w.bytes == start + EncList(EncOrigin, xs[..i])
    {
      EncListStep(EncOrigin, xs, i);
      EncodeOrigin(w, xs[i]);
    }
    assert xs[..|xs|] == xs;
  }

  method EncodeRequirement(w: ByteSink, r: Requirement)
    modifies w
    ensures w.bytes == old(w.bytes) + EncRequirement(r)
  {
    hide EncBytes, EncVector;
    w.Bytes(r.package);
    EncodeOrigins(w, r.origins);
  }

  method EncodeStrings(w: ByteSink, xs: seq<Bytes>)
    modifies w
    ensures w.bytes == old(w.bytes) + EncVector(EncBytes, xs)
  {
    hide EncBytes, EncU64;
    w.U64(|xs|);
    ghost var start := w.bytes;
    for i := 0 to |xs|
      invariant w.bytes == start + EncList(EncBytes, xs[..i])
    {
      EncListStep(EncBytes, xs, i);
      w.Bytes(xs[i]);
    }
    assert xs[..|xs|] == xs;
  }

  method EncodeRequirements(w: ByteSink, xs: seq<Requirement>)
    modifies w
    ensures w.bytes == old(w.bytes) + EncVector(EncRequirement, xs)
  {
    hide EncRequirement, EncU64;
    w.U64(|xs|);
    ghost var start := w.bytes;
    for i := 0 to |xs|
      invariant w.bytes == start + EncList(EncRequirement, xs[..i])
    {
      EncListStep(EncRequirement, xs, i);
      EncodeRequirement(w, xs[i]);
    }
    assert xs[..|xs|] == xs;
  }

  method EncodeProgram(w: ByteSink, p: Program)
    modifies w
    ensures w.bytes == old(w.bytes) + EncProgram(p)
  {
    hide EncBytes;
    w.U8(p.action.Code());
    w.U8(1);
    w.Bytes(p.material);
  }

  method EncodePrograms(w: ByteSink, xs: seq<Program>)
    modifies w
    ensures w.bytes == old(w.bytes) + EncVector(EncProgram, xs)
  {
    hide EncProgram, EncU64;
    w.U64(|xs|);
    ghost var start := w.bytes;
    for i := 0 to |xs|
      invariant w.bytes == start + EncList(EncProgram, xs[..i])
    {
      EncListStep(EncProgram, xs, i);
      EncodeProgram(w, xs[i]);
    }
    assert xs[..|xs|] == xs;
  }

  method EncodeLifecycleRequirement(w: ByteSink, r: LifecycleRequirement)
    modifies w
    ensures w.bytes == old(w.bytes) + EncLifecycleRequirement(r)
  {
    hide EncRequirement;
    w.U8(r.action.Code());
    EncodeRequirement(w, r.requirement);
  }

  method EncodeLifecycleRequirements(w: ByteSink, xs: seq<LifecycleRequirement>)
    modifies w
    ensures w.bytes == old(w.bytes) + EncVector(EncLifecycleRequirement, xs)
  {
    hide EncLifecycleRequirement, EncU64;
    w.U64(|xs|);
    ghost var start := w.bytes;
    for i := 0 to |xs|
      invariant w.bytes == start + EncList(EncLifecycleRequirement, xs[..i])
    {
      EncListStep(EncLifecycleRequirement, xs, i);
      EncodeLifecycleRequirement(w, xs[i]);
    }
    assert xs[..|xs|] == xs;
  }

  method EncodeDeclarations(w: ByteSink, xs: seq<Provenance>)
    modifies w
    ensures w.bytes == old(w.bytes) + EncVector(EncProvenance, xs)
  {
    hide EncProvenance, EncU64;
    w.U64(|xs|);
    ghost var start := w.bytes;
    for i := 0 to |xs|
      invariant w.bytes == start + EncList(EncProvenance, xs[..i])
    {
      EncListStep(EncProvenance, xs, i);
      EncodeProvenance(w, xs[i]);
    }
    assert xs[..|xs|] == xs;
  }

  method EncodeProfile(w: ByteSink, p: SelectedProfile)
    modifies w
    ensures w.bytes == old(w.bytes) + EncProfile(w.form, p)
  {
    hide EncBytes, EncDigest, EncVector;
    w.Bytes(p.profile);
    w.Digest(p.identity);
    EncodeDeclarations(w, p.declarations);
  }

  method EncodeProfiles(w: ByteSink, xs: seq<SelectedProfile>)
    modifies w
    ensures w.bytes == old(w.bytes) + EncVector(ProfileEnc(w.form), xs)
  {
    hide EncProfile, EncU64;
    w.U64(|xs|);
    ghost var start := w.bytes;
    for i := 0 to |xs|
      invariant w.bytes == start + EncList(ProfileEnc(w.form), xs[..i])
    {
      EncListStep(ProfileEnc(w.form), xs, i);
      EncodeProfile(w, xs[i]);
    }
    assert xs[..|xs|] == xs;
  }

  /** The fields of a source record, as the codec writes them and as the
      record's identity hashes them. */
  method EncodeSource(w: ByteSink, x: Source)
    modifies w
    ensures w.bytes == old(w.bytes) + EncSource(w.form, x)
  {
    hide EncSourceHead, EncSourceMiddle, EncSourceTail;
    EncodeSourceHead(w, x);
    EncodeSourceMiddle(w, x);
    EncodeSourceTail(w, x);
  }

  method EncodeSourceHead(w: ByteSink, x: Source)
    modifies w
    ensures w.bytes == old(w.bytes) + EncSourceHead(w.form, x)
  {
    hide EncBytes, EncDigest, EncU32, EncOption, EncVector;
    w.Digest(x.release.identity);
    w.Bytes(x.release.name);
    w.Bytes(x.release.version);
    w.U32(x.release.number);
    w.Bytes(x.metadata.summary);
    w.OptionalBytes(x.metadata.description);
    w.OptionalBytes(x.metadata.homepage);
    EncodeStrings(w, x.metadata.licenses);
  }

  method EncodeSourceMiddle(w: ByteSink, x: Source)
    modifies w
    ensures w.bytes == old(w.bytes) + EncSourceMiddle(x)
  {
    hide EncVector;
    EncodeRequirements(w, x.runtime);
    EncodePrograms(w, x.programs);
    EncodeLifecycleRequirements(w, x.lifecycle);
  }

  method EncodeSourceTail(w: ByteSink, x: Source)
    modifies w
    ensures w.bytes == old(w.bytes) + EncSourceTail(w.form, x)
  {
    hide EncVector, EncBytes, EncDigest;
    EncodeStrings(w, x.architectures.declaredBuild);
    EncodeStrings(w, x.architectures.declaredTarget);
    w.Bytes(x.architectures.selectedBuild);
    w.Bytes(x.architectures.selectedTarget);
    EncodeProfiles(w, x.profiles);
    w.Digest(x.snapshot);
  }

  // ---- readers ---------------------------------------------------------------

  method Constructed<T>(made: Option<T>) returns (answer: Result<T>)
    ensures answer == if made.Some? then Success(made.value) else Failure(InvalidValue)
  {
    return if made.Some? then Success(made.value) else Failure(InvalidValue);
  }

  method DecodeProvenance(r: Reader) returns (answer: Result<Provenance>)
    requires r.Valid()
    modifies r
    ensures r.Agrees(ParseProvenance(old(r.Rest())), answer)
  {
    hide ParseBytes, ParseU32;
    var document :- r.Bytes();
    var path :- r.Bytes();
    var line :- r.U32();
    var column :- r.U32();
    var p := Provenance(document, path, line, column);
    return if p.Valid() then Success(p) else Failure(InvalidValue);
  }

  method DecodeStep(r: Reader) returns (answer: Result<Step>)
    requires r.Valid()
    modifies r
    ensures r.Agrees(ParseStep(old(r.Rest())), answer)
  {
    hide ParseBytes, ParseProvenance;
    var profile :- r.Bytes();
    var code :- r.U8();
    var member :- r.Bytes();
    var provenance :- DecodeProvenance(r);
    var kind :- Constructed(MemberKindOf(code));
    var x := Step(profile, kind, member, provenance);
    return if x.Valid() then Success(x) else Failure(InvalidValue);
  }

  method DecodeSteps(r: Reader) returns (answer: Result<seq<Step>>)
    requires r.Valid()
    modifies r
    ensures r.Agrees(ParseVector(ParseStep, r.maximumCount, old(r.Rest())), answer)
  {
    hide ParseStep, ParseCount;
    var count :- r.Count();
    var xs: seq<Step> := [];
    ghost var whole := ParseList(ParseStep, count, r.Rest());
    PrependNothing(whole);
    for i := 0 to count
      invariant r.Valid()
      invariant whole == Prepend(xs, ParseList(ParseStep, count - i, r.Rest()))
    {
      ParseListStep(ParseStep, count - i, xs, r.Rest());
      var x :- DecodeStep(r);
      xs := xs + [x];
    }
    ParseListEnd(ParseStep, xs, r.Rest());
    return Success(xs);
  }

  method DecodeOrigin(r: Reader) returns (answer: Result<Origin>)
    requires r.Valid() && r.maximumCount == NO_LIMIT
    modifies r
    ensures r.Agrees(ParseOrigin(old(r.Rest())), answer)
  {
    hide ParseProvenance, ParseVector;
    var declaration :- DecodeProvenance(r);
    var expansion :- DecodeSteps(r);
    return Success(Origin(declaration, expansion));
  }

  method DecodeOrigins(r: Reader) returns (answer: Result<seq<Origin>>)
    requires r.Valid() && r.maximumCount == NO_LIMIT
    modifies r
    ensures r.Agrees(ParseVector(ParseOrigin, r.maximumCount, old(r.Rest())), answer)
  {
    hide ParseOrigin, ParseCount;
    var count :- r.Count();
    var xs: seq<Origin> := [];
    ghost var whole := ParseList(ParseOrigin, count, r.Rest());
    PrependNothing(whole);
    for i := 0 to count
      invariant r.Valid()
      invariant whole == Prepend(xs, ParseList(ParseOrigin, count - i, r.Rest()))
    {
      ParseListStep(ParseOrigin, count - i, xs, r.Rest());
      var x :- DecodeOrigin(r);
      xs := xs + [x];
    }
    ParseListEnd(ParseOrigin, xs, r.Rest());
    return Success(xs);
  }

  method DecodeName(r: Reader) returns (answer: Result<Bytes>)
    requires r.Valid()
    modifies r
    ensures r.Agrees(ParseName(old(r.Rest())), answer)
  {
    hide ParseBytes;
    var name :- r.Bytes();
    var canonical := CanonicalAtom(name, false);
    return if canonical then Success(name) else Failure(InvalidValue);
  }

  method DecodeProfileName(r: Reader) returns (answer: Result<Bytes>)
    requires r.Valid()
    modifies r
    ensures r.Agrees(ParseProfileName(old(r.Rest())), answer)
  {
    hide ParseBytes;
    var name :- r.Bytes();
    var canonical := CanonicalAtom(name, true);
    return if canonical then Success(name) else Failure(InvalidValue);
  }

  method DecodeRequirement(r: Reader) returns (answer: Result<Requirement>)
    requires r.Valid() && r.maximumCount == NO_LIMIT
    modifies r
    ensures r.Agrees(ParseRequirement(old(r.Rest())), answer)
  {
    hide ParseName, ParseVector, MakeRequirement;
    var package :- DecodeName(r);
    var origins :- DecodeOrigins(r);
    answer := Constructed(MakeRequirement(package, origins));
  }

  method DecodeRequirements(r: Reader) returns (answer: Result<seq<Requirement>>)
    requires r.Valid() && r.maximumCount == NO_LIMIT
    modifies r
    ensures r.Agrees(ParseVector(ParseRequirement, r.maximumCount, old(r.Rest())), answer)
  {
    hide ParseRequirement, ParseCount;
    var count :- r.Count();
    var xs: seq<Requirement> := [];
    ghost var whole := ParseList(ParseRequirement, count, r.Rest());
    PrependNothing(whole);
    for i := 0 to count
      invariant r.Valid()
      invariant whole == Prepend(xs, ParseList(ParseRequirement, count - i, r.Rest()))
    {
      ParseListStep(ParseRequirement, count - i, xs, r.Rest());
      var x :- DecodeRequirement(r);
      xs := xs + [x];
    }
    ParseListEnd(ParseRequirement, xs, r.Rest());
    return Success(xs);
  }

  method DecodeStrings(r: Reader) returns (answer: Result<seq<Bytes>>)
    requires r.Valid()
    modifies r
    ensures r.Agrees(ParseVector(ParseBytes, r.maximumCount, old(r.Rest())), answer)
  {
    hide ParseBytes, ParseCount;
    var count :- r.Count();
    var xs: seq<Bytes> := [];
    ghost var whole := ParseList(ParseBytes, count, r.Rest());
    PrependNothing(whole);
    for i := 0 to count
      invariant r.Valid()
      invariant whole == Prepend(xs, ParseList(ParseBytes, count - i, r.Rest()))
    {
      ParseListStep(ParseBytes, count - i, xs, r.Rest());
      var x :- r.Bytes();
      xs := xs + [x];
    }
    ParseListEnd(ParseBytes, xs, r.Rest());
    return Success(xs);
  }

  method DecodeNames(r: Reader) returns (answer: Result<seq<Bytes>>)
    requires r.Valid()
    modifies r
    ensures r.Agrees(ParseVector(ParseName, r.maximumCount, old(r.Rest())), answer)
  {
    hide ParseName, ParseCount;
    var count :- r.Count();
    var xs: seq<Bytes> := [];
    ghost var whole := ParseList(ParseName, count, r.Rest());
    PrependNothing(whole);
    for i := 0 to count
      invariant r.Valid()
      invariant whole == Prepend(xs, ParseList(ParseName, count - i, r.Rest()))
    {
      ParseListStep(ParseName, count - i, xs, r.Rest());
      var x :- DecodeName(r);
      xs := xs + [x];
    }
    ParseListEnd(ParseName, xs, r.Rest());
    return Success(xs);
  }

  method DecodeProgram(r: Reader) returns (answer: Result<Program>)
    requires r.Valid()
    modifies r
    ensures r.Agrees(ParseProgram(old(r.Rest())), answer)
  {
    hide ParseBytes;
    var actionCode :- r.U8();
    var languageCode :- r.U8();
    var material :- r.Bytes();
    var action :- Constructed(LifecycleActionOf(actionCode));
    var language :- Constructed(ProgramLanguageOf(languageCode));
    var p := Program(action, language, material);
    return if p.Valid() then Success(p) else Failure(InvalidValue);
  }

  method DecodePrograms(r: Reader) returns (answer: Result<seq<Program>>)
    requires r.Valid()
    modifies r
    ensures r.Agrees(ParseVector(ParseProgram, r.maximumCount, old(r.Rest())), answer)
  {
    hide ParseProgram, ParseCount;
    var count :- r.Count();
    var xs: seq<Program> := [];
    ghost var whole := ParseList(ParseProgram, count, r.Rest());
    PrependNothing(whole);
    for i := 0 to count
      invariant r.Valid()
      invariant whole == Prepend(xs, ParseList(ParseProgram, count - i, r.Rest()))
    {
      ParseListStep(ParseProgram, count - i, xs, r.Rest());
      var x :- DecodeProgram(r);
      xs := xs + [x];
    }
    ParseListEnd(ParseProgram, xs, r.Rest());
    return Success(xs);
  }

  method DecodeLifecycleRequirement(r: Reader) returns (answer: Result<LifecycleRequirement>)
    requires r.Valid() && r.maximumCount == NO_LIMIT
    modifies r
    ensures r.Agrees(ParseLifecycleRequirement(old(r.Rest())), answer)
  {
    hide ParseRequirement;
    var code :- r.U8();
    var requirement :- DecodeRequirement(r);
    var action :- Constructed(LifecycleActionOf(code));
    return Success(LifecycleRequirement(action, requirement));
  }

  method DecodeLifecycleRequirements(r: Reader) returns (answer: Result<seq<LifecycleRequirement>>)
    requires r.Valid() && r.maximumCount == NO_LIMIT
    modifies r
    ensures r.Agrees(ParseVector(ParseLifecycleRequirement, r.maximumCount, old(r.Rest())), answer)
  {
    hide ParseLifecycleRequirement, ParseCount;
    var count :- r.Count();
    var xs: seq<LifecycleRequirement> := [];
    ghost var whole := ParseList(ParseLifecycleRequirement, count, r.Rest());
    PrependNothing(whole);
    for i := 0 to count
      invariant r.Valid()
      invariant whole == Prepend(xs, ParseList(ParseLifecycleRequirement, count - i, r.Rest()))
    {
      ParseListStep(ParseLifecycleRequirement, count - i, xs, r.Rest());
      var x :- DecodeLifecycleRequirement(r);
      xs := xs + [x];
    }
    ParseListEnd(ParseLifecycleRequirement, xs, r.Rest());
    return Success(xs);
  }

  method DecodeDeclarations(r: Reader) returns (answer: Result<seq<Provenance>>)
    requires r.Valid()
    modifies r
    ensures r.Agrees(ParseVector(ParseProvenance, r.maximumCount, old(r.Rest())), answer)
  {
    hide ParseProvenance, ParseCount;
    var count :- r.Count();
    var xs: seq<Provenance> := [];
    ghost var whole := ParseList(ParseProvenance, count, r.Rest());
    PrependNothing(whole);
    for i := 0 to count
      invariant r.Valid()
      invariant whole == Prepend(xs, ParseList(ParseProvenance, count - i, r.Rest()))
    {
      ParseListStep(ParseProvenance, count - i, xs, r.Rest());
      var x :- DecodeProvenance(r);
      xs := xs + [x];
    }
    ParseListEnd(ParseProvenance, xs, r.Rest());
    return Success(xs);
  }

  method DecodeProfile(r: Reader) returns (answer: Result<SelectedProfile>)
    requires r.Valid() && r.maximumCount == NO_LIMIT
    modifies r
    ensures r.Agrees(ProfileParse(Text)(old(r.Rest())), answer)
  {
    hide ParseProfileName, ParseDigest, ParseVector, MakeSelectedProfile;
    var profile :- DecodeProfileName(r);
    var identity :- r.Digest();
    var declarations :- DecodeDeclarations(r);
    answer := Constructed(MakeSelectedProfile(profile, identity, declarations));
  }

  method DecodeProfiles(r: Reader) returns (answer: Result<seq<SelectedProfile>>)
    requires r.Valid() && r.maximumCount == NO_LIMIT
    modifies r
    ensures r.Agrees(ParseVector(ProfileParse(Text), r.maximumCount, old(r.Rest())), answer)
  {
    hide ParseProfile, ParseCount;
    var count :- r.Count();
    var xs: seq<SelectedProfile> := [];
    ghost var whole := ParseList(ProfileParse(Text), count, r.Rest());
    PrependNothing(whole);
    for i := 0 to count
      invariant r.Valid()
      invariant whole == Prepend(xs, ParseList(ProfileParse(Text), count - i, r.Rest()))
    {
      ParseListStep(ProfileParse(Text), count - i, xs, r.Rest());
      var x :- DecodeProfile(r);
      xs := xs + [x];
    }
    ParseListEnd(ProfileParse(Text), xs, r.Rest());
    return Success(xs);
  }

  method DecodeSourceHead(r: Reader) returns (answer: Result<(Release, Metadata)>)
    requires r.Valid() && r.maximumCount == NO_LIMIT
    modifies r
    ensures r.Agrees(ParseSourceHead(Text, old(r.Rest())), answer)
  {
    var release :- DecodeRelease(r);
    var metadata :- DecodeMetadata(r);
    return Success((release, metadata));
  }

  method DecodeRelease(r: Reader) returns (answer: Result<Release>)
    requires r.Valid()
    modifies r
    ensures r.Agrees(ParseRelease(Text, old(r.Rest())), answer)
  {
    hide ParseDigest, ParseBytes, ParseU32;
    var identity :- r.Digest();
    var name :- r.Bytes();
    var version :- r.Bytes();
    var number :- r.U32();
    var release := Release(identity, name, version, number);
    return if release.Valid() then Success(release) else Failure(InvalidValue);
  }

  method DecodeMetadata(r: Reader) returns (answer: Result<Metadata>)
    requires r.Valid() && r.maximumCount == NO_LIMIT
    modifies r
    ensures r.Agrees(ParseMetadata(old(r.Rest())), answer)
  {
    hide ParseBytes, ParseOption, ParseVector, MakeMetadata;
    var summary :- r.Bytes();
    var description :- r.OptionalBytes();
    var homepage :- r.OptionalBytes();
    var licenses :- DecodeStrings(r);
    answer := Constructed(MakeMetadata(summary, description, homepage, licenses));
  }

  method DecodeSourceMiddle(r: Reader) returns (answer: Result<(seq<Requirement>, seq<Program>, seq<LifecycleRequirement>)>)
    requires r.Valid() && r.maximumCount == NO_LIMIT
    modifies r
    ensures r.Agrees(ParseSourceMiddle(old(r.Rest())), answer)
  {
    hide ParseVector;
    var runtime :- DecodeRequirements(r);
    var programs :- DecodePrograms(r);
    var lifecycle :- DecodeLifecycleRequirements(r);
    return Success((runtime, programs, lifecycle));
  }

  method DecodeArchitectures(r: Reader) returns (answer: Result<Architectures>)
    requires r.Valid() && r.maximumCount == NO_LIMIT
    modifies r
    ensures r.Agrees(ParseArchitectures(old(r.Rest())), answer)
  {
    hide ParseName, ParseVector, MakeArchitectures;
    var build :- DecodeNames(r);
    var target :- DecodeNames(r);
    var selectedBuild :- DecodeName(r);
    var selectedTarget :- DecodeName(r);
    answer := Constructed(MakeArchitectures(build, target, selectedBuild, selectedTarget));
  }

  method DecodeSourceTail(r: Reader) returns (answer: Result<(Architectures, seq<SelectedProfile>, Digest)>)
    requires r.Valid() && r.maximumCount == NO_LIMIT
    modifies r
    ensures r.Agrees(ParseSourceTail(Text, old(r.Rest())), answer)
  {
    hide ParseArchitectures, ParseVector, ParseDigest;
    var architectures :- DecodeArchitectures(r);
    var profiles :- DecodeProfiles(r);
    var snapshot :- r.Digest();
    return Success((architectures, profiles, snapshot));
  }

  method DecodeSource(r: Reader) returns (answer: Result<Source>)
    requires r.Valid() && r.maximumCount == NO_LIMIT
    modifies r
    ensures r.Agrees(ParseSource(Text, old(r.Rest())), answer)
  {
    hide ParseSourceHead, ParseSourceMiddle, ParseSourceTail, MakeSource;
    var head :- DecodeSourceHead(r);
    var middle :- DecodeSourceMiddle(r);
    var tail :- DecodeSourceTail(r);
    answer := Constructed(MakeSource(head.0, head.1, middle.0, middle.1, middle.2, tail.0, tail.1, tail.2));
  }
}
