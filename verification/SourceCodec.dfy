/** The wire form of a package source record.  The generation codec and the
    identity preimage write the same fields in the same order; they differ only
    in how a digest is written. */
module SourceCodec {
  import opened Core
  import opened Wire
  import opened Model

  // ---- provenance -----------------------------------------------------------

  function EncProvenance(p: Provenance): Bytes {
    EncBytes(p.document) + EncBytes(p.path) + EncU32(p.line) + EncU32(p.column)
  }

  function ParseProvenance(s: Bytes): Parsed<Provenance> {
    var (document, s) :- ParseBytes(s);
    var (path, s) :- ParseBytes(s);
    var (line, s) :- ParseU32(s);
    var (column, s) :- ParseU32(s);
    var p := Provenance(document, path, line, column);
    if p.Valid() then Parsed(p, s) else Rejected(InvalidValue)
  }

  lemma ProvenanceRoundTrip(p: Provenance, rest: Bytes)
    requires p.Valid()
    ensures ParseProvenance(EncProvenance(p) + rest) == Parsed(p, rest)
  {
    var afterLine := EncU32(p.column) + rest;
    var afterPath := EncU32(p.line) + afterLine;
    assert EncProvenance(p) + rest == EncBytes(p.document) + (EncBytes(p.path) + afterPath);
    BytesRoundTrip(p.document, EncBytes(p.path) + afterPath);
    BytesRoundTrip(p.path, afterPath);
    U32RoundTrip(p.line, afterLine);
    U32RoundTrip(p.column, rest);
  }

  lemma ProvenanceInverse(p: Provenance)
    requires p.Valid()
    ensures Inverse(EncProvenance, ParseProvenance, p) && |EncProvenance(p)| >= 1
  {
    forall rest { ProvenanceRoundTrip(p, rest); }
  }

  // ---- requirements -----------------------------------------------------------

  function MemberKindOf(b: Byte): Option<MemberKind> {
    if b == 1 then Some(PackageMember) else if b == 2 then Some(ProfileMember) else None
  }

  function EncStep(x: Step): Bytes {
    EncBytes(x.profile) + [x.kind.Code()] + EncBytes(x.member) + EncProvenance(x.provenance)
  }

  function ParseStep(s: Bytes): Parsed<Step> {
    var (profile, s) :- ParseBytes(s);
    var (code, s) :- ParseU8(s);
    var (member, s) :- ParseBytes(s);
    var (provenance, s) :- ParseProvenance(s);
    var (kind, s) :- Built(MemberKindOf(code), s);
    var x := Step(profile, kind, member, provenance);
    if x.Valid() then Parsed(x, s) else Rejected(InvalidValue)
  }

  lemma StepInverse(x: Step)
    requires x.Valid()
    ensures Inverse(EncStep, ParseStep, x) && |EncStep(x)| >= 1
  {
    forall rest: Bytes ensures ParseStep(EncStep(x) + rest) == Parsed(x, rest) {
      var afterMember := EncProvenance(x.provenance) + rest;
      var afterKind := EncBytes(x.member) + afterMember;
      assert EncStep(x) + rest == EncBytes(x.profile) + ([x.kind.Code()] + afterKind);
      BytesRoundTrip(x.profile, [x.kind.Code()] + afterKind);
      U8RoundTrip(x.kind.Code(), afterKind);
      BytesRoundTrip(x.member, afterMember);
      ProvenanceRoundTrip(x.provenance, rest);
    }
  }

  function EncOrigin(o: Origin): Bytes {
    EncProvenance(o.declaration) + EncVector(EncStep, o.expansion)
  }

  function ParseOrigin(s: Bytes): Parsed<Origin> {
    var (declaration, s) :- ParseProvenance(s);
    var (expansion, s) :- ParseVector(ParseStep, NO_LIMIT, s);
    Parsed(Origin(declaration, expansion), s)
  }

  lemma OriginInverse(o: Origin)
    requires o.Valid()
    ensures Inverse(EncOrigin, ParseOrigin, o) && |EncOrigin(o)| >= 1
  {
    forall x | x in o.expansion ensures Inverse(EncStep, ParseStep, x) && |EncStep(x)| >= 1 { StepInverse(x); }
    forall rest: Bytes ensures ParseOrigin(EncOrigin(o) + rest) == Parsed(o, rest) {
      var tail := EncVector(EncStep, o.expansion) + rest;
      assert EncOrigin(o) + rest == EncProvenance(o.declaration) + tail;
      ProvenanceRoundTrip(o.declaration, tail);
      VectorRoundTrip(EncStep, ParseStep, NO_LIMIT, o.expansion, rest);
    }
  }

  lemma OriginParses(s: Bytes)
    ensures ParseOrigin(s).Parsed? ==> ParseOrigin(s).value.Valid()
  {
    var d := ParseProvenance(s);
    if d.Parsed? {
      VectorAll(ParseStep, (x: Step) => x.Valid(), NO_LIMIT, d.rest);
    }
  }

  function EncRequirement(r: Requirement): Bytes {
    EncBytes(r.package) + EncVector(EncOrigin, r.origins)
  }

  function ParseRequirement(s: Bytes): Parsed<Requirement> {
    var (package, s) :- ParseName(s);
    var (origins, s) :- ParseVector(ParseOrigin, NO_LIMIT, s);
    Built(MakeRequirement(package, origins), s)
  }

  lemma RequirementRoundTrip(r: Requirement, rest: Bytes)
    requires r.Valid()
    ensures ParseRequirement(EncRequirement(r) + rest) == Parsed(r, rest)
  {
    forall x | x in r.origins ensures Inverse(EncOrigin, ParseOrigin, x) && |EncOrigin(x)| >= 1 { OriginInverse(x); }
    var tail := EncVector(EncOrigin, r.origins) + rest;
    assert EncRequirement(r) + rest == EncBytes(r.package) + tail;
    BytesRoundTrip(r.package, tail);
    VectorRoundTrip(EncOrigin, ParseOrigin, NO_LIMIT, r.origins, rest);
    RequirementFixed(r);
  }

  lemma RequirementInverse(r: Requirement)
    requires r.Valid()
    ensures Inverse(EncRequirement, ParseRequirement, r) && |EncRequirement(r)| >= 1
  {
    forall rest { RequirementRoundTrip(r, rest); }
  }

  lemma RequirementParses(s: Bytes)
    ensures ParseRequirement(s).Parsed? ==> ParseRequirement(s).value.Valid()
  {
    var name := ParseName(s);
    if name.Parsed? {
      forall t ensures ParseOrigin(t).Parsed? ==> ParseOrigin(t).value.Valid() { OriginParses(t); }
      VectorAll(ParseOrigin, (x: Origin) => x.Valid(), NO_LIMIT, name.rest);
      var origins := ParseVector(ParseOrigin, NO_LIMIT, name.rest);
      if origins.Parsed? {
        RequirementValid(name.value, origins.value);
      }
    }
  }

  // ---- names, release, metadata -------------------------------------------------

  function ParseName(s: Bytes): Parsed<Bytes> {
    var (name, s) :- ParseBytes(s);
    if IsAtom(name, false) then Parsed(name, s) else Rejected(InvalidValue)
  }

  function ParseProfileName(s: Bytes): Parsed<Bytes> {
    var (name, s) :- ParseBytes(s);
    if IsAtom(name, true) then Parsed(name, s) else Rejected(InvalidValue)
  }

  lemma NamesInverse(names: seq<Bytes>)
    requires ValidNames(names)
    ensures forall x :: x in names ==> Inverse(EncBytes, ParseName, x) && |EncBytes(x)| >= 1
  {
    forall x, rest: Bytes | x in names ensures ParseName(EncBytes(x) + rest) == Parsed(x, rest) {
      BytesRoundTrip(x, rest);
    }
  }

  function EncRelease(form: DigestForm, r: Release): Bytes {
    EncDigest(form, r.identity) + EncBytes(r.name) + EncBytes(r.version) + EncU32(r.number)
  }

  function ParseRelease(form: DigestForm, s: Bytes): Parsed<Release> {
    var (identity, s) :- ParseDigest(form, s);
    var (name, s) :- ParseBytes(s);
    var (version, s) :- ParseBytes(s);
    var (number, s) :- ParseU32(s);
    var r := Release(identity, name, version, number);
    if r.Valid() then Parsed(r, s) else Rejected(InvalidValue)
  }

  lemma ReleaseRoundTrip(form: DigestForm, r: Release, rest: Bytes)
    requires r.Valid()
    ensures ParseRelease(form, EncRelease(form, r) + rest) == Parsed(r, rest)
  {
    var afterVersion := EncU32(r.number) + rest;
    var afterName := EncBytes(r.version) + afterVersion;
    assert EncRelease(form, r) + rest == EncDigest(form, r.identity) + (EncBytes(r.name) + afterName);
    DigestRoundTrip(form, r.identity, EncBytes(r.name) + afterName);
    BytesRoundTrip(r.name, afterName);
    BytesRoundTrip(r.version, afterVersion);
    U32RoundTrip(r.number, rest);
  }

  lemma ReleaseParses(form: DigestForm, s: Bytes)
    ensures ParseRelease(form, s).Parsed? ==> ParseRelease(form, s).value.Valid()
  {
  }

  function EncMetadata(m: Metadata): Bytes {
    EncBytes(m.summary) + EncOption(EncBytes, m.description) + EncOption(EncBytes, m.homepage)
    + EncVector(EncBytes, m.licenses)
  }

  function ParseMetadata(s: Bytes): Parsed<Metadata> {
    var (summary, s) :- ParseBytes(s);
    var (description, s) :- ParseOption(ParseBytes, s);
    var (homepage, s) :- ParseOption(ParseBytes, s);
    var (licenses, s) :- ParseVector(ParseBytes, NO_LIMIT, s);
    Built(MakeMetadata(summary, description, homepage, licenses), s)
  }

  lemma BytesInverse(s: Bytes)
    requires Sized(s)
    ensures Inverse(EncBytes, ParseBytes, s) && |EncBytes(s)| >= 1
  {
    assert |EncBytes(s)| >= 1;
    hide EncBytes, ParseBytes;
    forall rest: Bytes ensures ParseBytes(EncBytes(s) + rest) == Parsed(s, rest) { BytesRoundTrip(s, rest); }
  }

  lemma MetadataRoundTrip(m: Metadata, rest: Bytes)
    requires m.Valid()
    ensures ParseMetadata(EncMetadata(m) + rest) == Parsed(m, rest)
  {
    hide EncBytes, EncOption, EncVector, ParseBytes, ParseOption, ParseVector, MakeMetadata;
    forall x | x in m.licenses ensures Inverse(EncBytes, ParseBytes, x) && |EncBytes(x)| >= 1 { BytesInverse(x); }
    if m.description.Some? { BytesInverse(m.description.value); }
    if m.homepage.Some? { BytesInverse(m.homepage.value); }
    var afterHomepage := EncVector(EncBytes, m.licenses) + rest;
    var afterDescription := EncOption(EncBytes, m.homepage) + afterHomepage;
    var afterSummary := EncOption(EncBytes, m.description) + afterDescription;
    assert EncMetadata(m) + rest == EncBytes(m.summary) + afterSummary;
    BytesRoundTrip(m.summary, afterSummary);
    OptionRoundTrip(EncBytes, ParseBytes, m.description, afterDescription);
    OptionRoundTrip(EncBytes, ParseBytes, m.homepage, afterHomepage);
    VectorRoundTrip(EncBytes, ParseBytes, NO_LIMIT, m.licenses, rest);
    MetadataFixed(m);
  }

  lemma OptionalBytesParse(s: Bytes)
    ensures var r := ParseOption(ParseBytes, s); r.Parsed? && r.value.Some? ==> Sized(r.value.value)
  {
  }

  lemma MetadataParses(s: Bytes)
    ensures ParseMetadata(s).Parsed? ==> ParseMetadata(s).value.Valid()
  {
    if ParseMetadata(s).Parsed? {
      var summary := ParseBytes(s);
      var description := ParseOption(ParseBytes, summary.rest);
      var homepage := ParseOption(ParseBytes, description.rest);
      OptionalBytesParse(summary.rest);
      OptionalBytesParse(description.rest);
      VectorAll(ParseBytes, (x: Bytes) => Sized(x), NO_LIMIT, homepage.rest);
      var licenses := ParseVector(ParseBytes, NO_LIMIT, homepage.rest);
      MetadataValid(summary.value, description.value, homepage.value, licenses.value);
    }
  }

  // ---- lifecycle ---------------------------------------------------------------------

  function LifecycleActionOf(b: Byte): Option<LifecycleAction> {
    if b == 1 then Some(PreInstall) else if b == 2 then Some(PostInstall)
    else if b == 3 then Some(PreRemove) else if b == 4 then Some(PostRemove) else None
  }

  function ProgramLanguageOf(b: Byte): Option<ProgramLanguage> { if b == 1 then Some(PosixShell) else None }

  function EncProgram(p: Program): Bytes { [p.action.Code()] + [1] + EncBytes(p.material) }

  function ParseProgram(s: Bytes): Parsed<Program> {
    var (action, s) :- ParseU8(s);
    var (language, s) :- ParseU8(s);
    var (material, s) :- ParseBytes(s);
    var (action, s) :- Built(LifecycleActionOf(action), s);
    var (language, s) :- Built(ProgramLanguageOf(language), s);
    var p := Program(action, language, material);
    if p.Valid() then Parsed(p, s) else Rejected(InvalidValue)
  }

  lemma ProgramInverse(p: Program)
    requires p.Valid()
    ensures Inverse(EncProgram, ParseProgram, p) && |EncProgram(p)| >= 1
  {
    hide EncBytes, ParseBytes;
    forall rest: Bytes ensures ParseProgram(EncProgram(p) + rest) == Parsed(p, rest) {
      var tail := EncBytes(p.material) + rest;
      assert EncProgram(p) + rest == [p.action.Code()] + ([1] + tail);
      U8RoundTrip(p.action.Code(), [1] + tail);
      U8RoundTrip(1, tail);
      BytesRoundTrip(p.material, rest);
      assert LifecycleActionOf(p.action.Code()) == Some(p.action);
      assert p.language == PosixShell;
    }
  }

  lemma ProgramParses(s: Bytes)
    ensures ParseProgram(s).Parsed? ==> ParseProgram(s).value.Valid()
  {
  }

  function EncLifecycleRequirement(r: LifecycleRequirement): Bytes {
    [r.action.Code()] + EncRequirement(r.requirement)
  }

  function ParseLifecycleRequirement(s: Bytes): Parsed<LifecycleRequirement> {
    var (action, s) :- ParseU8(s);
    var (requirement, s) :- ParseRequirement(s);
    var (action, s) :- Built(LifecycleActionOf(action), s);
    Parsed(LifecycleRequirement(action, requirement), s)
  }

  lemma LifecycleRequirementInverse(r: LifecycleRequirement)
    requires r.requirement.Valid()
    ensures Inverse(EncLifecycleRequirement, ParseLifecycleRequirement, r) && |EncLifecycleRequirement(r)| >= 1
  {
    hide EncRequirement, ParseRequirement;
    forall rest: Bytes ensures ParseLifecycleRequirement(EncLifecycleRequirement(r) + rest) == Parsed(r, rest) {
      assert EncLifecycleRequirement(r) + rest == [r.action.Code()] + (EncRequirement(r.requirement) + rest);
      U8RoundTrip(r.action.Code(), EncRequirement(r.requirement) + rest);
      RequirementRoundTrip(r.requirement, rest);
    }
  }

  lemma LifecycleRequirementParses(s: Bytes)
    ensures ParseLifecycleRequirement(s).Parsed? ==> ParseLifecycleRequirement(s).value.requirement.Valid()
  {
    if ParseU8(s).Parsed? { RequirementParses(ParseU8(s).rest); }
  }

  // ---- architectures and profiles --------------------------------------------------------

  function EncArchitectures(a: Architectures): Bytes {
    EncVector(EncBytes, a.declaredBuild) + EncVector(EncBytes, a.declaredTarget)
    + EncBytes(a.selectedBuild) + EncBytes(a.selectedTarget)
  }

  function ParseArchitectures(s: Bytes): Parsed<Architectures> {
    var (build, s) :- ParseVector(ParseName, NO_LIMIT, s);
    var (target, s) :- ParseVector(ParseName, NO_LIMIT, s);
    var (selectedBuild, s) :- ParseName(s);
    var (selectedTarget, s) :- ParseName(s);
    Built(MakeArchitectures(build, target, selectedBuild, selectedTarget), s)
  }

  lemma ArchitecturesRoundTrip(a: Architectures, rest: Bytes)
    requires a.Valid()
    ensures ParseArchitectures(EncArchitectures(a) + rest) == Parsed(a, rest)
  {
    hide EncBytes, EncVector, ParseBytes, ParseVector, MakeArchitectures;
    NamesInverse(a.declaredBuild);
    NamesInverse(a.declaredTarget);
    var afterBuild := EncBytes(a.selectedTarget) + rest;
    var afterTargets := EncBytes(a.selectedBuild) + afterBuild;
    var afterBuilds := EncVector(EncBytes, a.declaredTarget) + afterTargets;
    assert EncArchitectures(a) + rest == EncVector(EncBytes, a.declaredBuild) + afterBuilds;
    VectorRoundTrip(EncBytes, ParseName, NO_LIMIT, a.declaredBuild, afterBuilds);
    VectorRoundTrip(EncBytes, ParseName, NO_LIMIT, a.declaredTarget, afterTargets);
    BytesRoundTrip(a.selectedBuild, afterBuild);
    BytesRoundTrip(a.selectedTarget, rest);
    ArchitecturesFixed(a);
  }

  lemma ArchitecturesParses(s: Bytes)
    ensures ParseArchitectures(s).Parsed? ==> ParseArchitectures(s).value.Valid()
  {
    if ParseArchitectures(s).Parsed? {
      var good := (x: Bytes) => Sized(x) && IsAtom(x, false);
      var build := ParseVector(ParseName, NO_LIMIT, s);
      var target := ParseVector(ParseName, NO_LIMIT, build.rest);
      VectorAll(ParseName, good, NO_LIMIT, s);
      VectorAll(ParseName, good, NO_LIMIT, build.rest);
      var b := ParseName(target.rest);
      var t := ParseName(b.rest);
      assert forall x :: x in build.value ==> good(x);
      assert forall x :: x in target.value ==> good(x);
      ArchitecturesValid(build.value, target.value, b.value, t.value);
    }
  }

  function EncProfile(form: DigestForm, p: SelectedProfile): Bytes {
    EncBytes(p.profile) + EncDigest(form, p.identity) + EncVector(EncProvenance, p.declarations)
  }

  function ProfileEnc(form: DigestForm): SelectedProfile -> Bytes { p => EncProfile(form, p) }

  function ParseProfile(form: DigestForm, s: Bytes): Parsed<SelectedProfile> {
    var (profile, s) :- ParseProfileName(s);
    var (identity, s) :- ParseDigest(form, s);
    var (declarations, s) :- ParseVector(ParseProvenance, NO_LIMIT, s);
    Built(MakeSelectedProfile(profile, identity, declarations), s)
  }

  function ProfileParse(form: DigestForm): Bytes -> Parsed<SelectedProfile> { s => ParseProfile(form, s) }

  lemma ProfileInverse(form: DigestForm, p: SelectedProfile)
    requires p.Valid()
    ensures Inverse(ProfileEnc(form), ProfileParse(form), p) && |EncProfile(form, p)| >= 1
  {
    hide EncDigest, EncVector, ParseBytes, ParseDigest, ParseVector, MakeSelectedProfile;
    forall x | x in p.declarations ensures Inverse(EncProvenance, ParseProvenance, x) && |EncProvenance(x)| >= 1 {
      ProvenanceInverse(x);
    }
    forall rest: Bytes ensures ParseProfile(form, EncProfile(form, p) + rest) == Parsed(p, rest) {
      var afterIdentity := EncVector(EncProvenance, p.declarations) + rest;
      var afterName := EncDigest(form, p.identity) + afterIdentity;
      assert EncProfile(form, p) + rest == EncBytes(p.profile) + afterName;
      BytesRoundTrip(p.profile, afterName);
      DigestRoundTrip(form, p.identity, afterIdentity);
      VectorRoundTrip(EncProvenance, ParseProvenance, NO_LIMIT, p.declarations, rest);
      SelectedProfileFixed(p);
    }
  }

  lemma ProfileParses(form: DigestForm, s: Bytes)
    ensures ParseProfile(form, s).Parsed? ==> ParseProfile(form, s).value.Valid()
  {
    hide ParseBytes, ParseDigest, ParseVector, MakeSelectedProfile;
    if ParseProfile(form, s).Parsed? {
      var name := ParseProfileName(s);
      var identity := ParseDigest(form, name.rest);
      VectorAll(ParseProvenance, (x: Provenance) => x.Valid(), NO_LIMIT, identity.rest);
      var declarations := ParseVector(ParseProvenance, NO_LIMIT, identity.rest);
      SelectedProfileValid(name.value, identity.value, declarations.value);
    }
  }

  // ---- the record ------------------------------------------------------------------------

  /** Release and metadata. */
  function EncSourceHead(form: DigestForm, x: Source): Bytes { EncRelease(form, x.release) + EncMetadata(x.metadata) }

  /** Requirements and lifecycle. */
  function EncSourceMiddle(x: Source): Bytes {
    EncVector(EncRequirement, x.runtime) + EncVector(EncProgram, x.programs)
    + EncVector(EncLifecycleRequirement, x.lifecycle)
  }

  /** Architectures, profiles and the source snapshot. */
  function EncSourceTail(form: DigestForm, x: Source): Bytes {
    EncArchitectures(x.architectures) + EncVector(ProfileEnc(form), x.profiles) + EncDigest(form, x.snapshot)
  }

  function EncSource(form: DigestForm, x: Source): Bytes {
    EncSourceHead(form, x) + EncSourceMiddle(x) + EncSourceTail(form, x)
  }

  function ParseSourceHead(form: DigestForm, s: Bytes): Parsed<(Release, Metadata)> {
    var (release, s) :- ParseRelease(form, s);
    var (metadata, s) :- ParseMetadata(s);
    Parsed((release, metadata), s)
  }

  function ParseSourceMiddle(s: Bytes): Parsed<(seq<Requirement>, seq<Program>, seq<LifecycleRequirement>)> {
    var (runtime, s) :- ParseVector(ParseRequirement, NO_LIMIT, s);
    var (programs, s) :- ParseVector(ParseProgram, NO_LIMIT, s);
    var (lifecycle, s) :- ParseVector(ParseLifecycleRequirement, NO_LIMIT, s);
    Parsed((runtime, programs, lifecycle), s)
  }

  function ParseSourceTail(form: DigestForm, s: Bytes): Parsed<(Architectures, seq<SelectedProfile>, Digest)> {
    var (architectures, s) :- ParseArchitectures(s);
    var (profiles, s) :- ParseVector(ProfileParse(form), NO_LIMIT, s);
    var (snapshot, s) :- ParseDigest(form, s);
    Parsed((architectures, profiles, snapshot), s)
  }

  function ParseSource(form: DigestForm, s: Bytes): Parsed<Source> {
    var (head, s) :- ParseSourceHead(form, s);
    var (middle, s) :- ParseSourceMiddle(s);
    var (tail, s) :- ParseSourceTail(form, s);
    Built(MakeSource(head.0, head.1, middle.0, middle.1, middle.2, tail.0, tail.1, tail.2), s)
  }

  lemma SourceHeadRoundTrip(form: DigestForm, x: Source, rest: Bytes)
    requires x.release.Valid() && x.metadata.Valid()
    ensures ParseSourceHead(form, EncSourceHead(form, x) + rest) == Parsed((x.release, x.metadata), rest)
  {
    assert EncSourceHead(form, x) + rest == EncRelease(form, x.release) + (EncMetadata(x.metadata) + rest);
    ReleaseRoundTrip(form, x.release, EncMetadata(x.metadata) + rest);
    MetadataRoundTrip(x.metadata, rest);
  }

  lemma SourceMiddleRoundTrip(x: Source, rest: Bytes)
    requires x.Parts()
    ensures ParseSourceMiddle(EncSourceMiddle(x) + rest) == Parsed((x.runtime, x.programs, x.lifecycle), rest)
  {
    hide EncVector, ParseVector, EncRequirement, EncProgram, EncLifecycleRequirement;
    forall r | r in x.runtime ensures Inverse(EncRequirement, ParseRequirement, r) && |EncRequirement(r)| >= 1 {
      RequirementInverse(r);
    }
    forall p | p in x.programs ensures Inverse(EncProgram, ParseProgram, p) && |EncProgram(p)| >= 1 {
      ProgramInverse(p);
    }
    forall r | r in x.lifecycle
      ensures Inverse(EncLifecycleRequirement, ParseLifecycleRequirement, r) && |EncLifecycleRequirement(r)| >= 1
    {
      LifecycleRequirementInverse(r);
    }
    var afterPrograms := EncVector(EncLifecycleRequirement, x.lifecycle) + rest;
    var afterRuntime := EncVector(EncProgram, x.programs) + afterPrograms;
    assert EncSourceMiddle(x) + rest == EncVector(EncRequirement, x.runtime) + afterRuntime;
    VectorRoundTrip(EncRequirement, ParseRequirement, NO_LIMIT, x.runtime, afterRuntime);
    VectorRoundTrip(EncProgram, ParseProgram, NO_LIMIT, x.programs, afterPrograms);
    VectorRoundTrip(EncLifecycleRequirement, ParseLifecycleRequirement, NO_LIMIT, x.lifecycle, rest);
  }

  lemma SourceTailRoundTrip(form: DigestForm, x: Source, rest: Bytes)
    requires x.Parts()
    ensures ParseSourceTail(form, EncSourceTail(form, x) + rest) == Parsed((x.architectures, x.profiles, x.snapshot), rest)
  {
    hide EncArchitectures, EncVector, EncDigest, ParseArchitectures, ParseVector, ParseDigest;
    forall p | p in x.profiles ensures Inverse(ProfileEnc(form), ProfileParse(form), p) && |ProfileEnc(form)(p)| >= 1 {
      ProfileInverse(form, p);
    }
    var afterProfiles := EncDigest(form, x.snapshot) + rest;
    var afterArchitectures := EncVector(ProfileEnc(form), x.profiles) + afterProfiles;
    assert EncSourceTail(form, x) + rest == EncArchitectures(x.architectures) + afterArchitectures;
    ArchitecturesRoundTrip(x.architectures, afterArchitectures);
    VectorRoundTrip(ProfileEnc(form), ProfileParse(form), NO_LIMIT, x.profiles, afterProfiles);
    DigestRoundTrip(form, x.snapshot, rest);
  }

  lemma SourceRoundTrip(form: DigestForm, x: Source, rest: Bytes)
    requires x.Valid()
    ensures ParseSource(form, EncSource(form, x) + rest) == Parsed(x, rest)
  {
    hide EncSourceHead, EncSourceMiddle, EncSourceTail, ParseSourceHead, ParseSourceMiddle, ParseSourceTail, MakeSource;
    var afterMiddle := EncSourceTail(form, x) + rest;
    var afterHead := EncSourceMiddle(x) + afterMiddle;
    assert EncSource(form, x) + rest == EncSourceHead(form, x) + afterHead;
    SourceHeadRoundTrip(form, x, afterHead);
    SourceMiddleRoundTrip(x, afterMiddle);
    SourceTailRoundTrip(form, x, rest);
    SourceFixed(x);
  }

  lemma SourceMiddleParses(s: Bytes)
    ensures var r := ParseSourceMiddle(s);
            r.Parsed? ==>
              && Sized(r.value.0) && (forall x :: x in r.value.0 ==> x.Valid())
              && Sized(r.value.1) && (forall x :: x in r.value.1 ==> x.Valid())
              && Sized(r.value.2) && (forall x :: x in r.value.2 ==> x.requirement.Valid())
  {
    hide ParseRequirement, ParseProgram, ParseLifecycleRequirement;
    if ParseSourceMiddle(s).Parsed? {
      var runtime := ParseVector(ParseRequirement, NO_LIMIT, s);
      var programs := ParseVector(ParseProgram, NO_LIMIT, runtime.rest);
      forall t ensures ParseRequirement(t).Parsed? ==> ParseRequirement(t).value.Valid() { RequirementParses(t); }
      forall t ensures ParseLifecycleRequirement(t).Parsed? ==> ParseLifecycleRequirement(t).value.requirement.Valid() {
        LifecycleRequirementParses(t);
      }
      VectorAll(ParseRequirement, (x: Requirement) => x.Valid(), NO_LIMIT, s);
      forall t ensures ParseProgram(t).Parsed? ==> ParseProgram(t).value.Valid() { ProgramParses(t); }
      VectorAll(ParseProgram, (x: Program) => x.Valid(), NO_LIMIT, runtime.rest);
      VectorAll(ParseLifecycleRequirement, (x: LifecycleRequirement) => x.requirement.Valid(), NO_LIMIT, programs.rest);
    }
  }

  lemma SourceTailParses(form: DigestForm, s: Bytes)
    ensures var r := ParseSourceTail(form, s);
            r.Parsed? ==> r.value.0.Valid() && Sized(r.value.1) && forall x :: x in r.value.1 ==> x.Valid()
  {
    if ParseSourceTail(form, s).Parsed? {
      ArchitecturesParses(s);
      forall t ensures ProfileParse(form)(t).Parsed? ==> ProfileParse(form)(t).value.Valid() { ProfileParses(form, t); }
      VectorAll(ProfileParse(form), (x: SelectedProfile) => x.Valid(), NO_LIMIT, ParseArchitectures(s).rest);
    }
  }

  lemma SourceParses(form: DigestForm, s: Bytes)
    ensures ParseSource(form, s).Parsed? ==> ParseSource(form, s).value.Valid()
  {
    hide ParseRelease, ParseMetadata, ParseSourceMiddle, ParseSourceTail, MakeSource;
    if ParseSource(form, s).Parsed? {
      var head := ParseSourceHead(form, s);
      var middle := ParseSourceMiddle(head.rest);
      var tail := ParseSourceTail(form, middle.rest);
      ReleaseParses(form, s);
      MetadataParses(ParseRelease(form, s).rest);
      SourceMiddleParses(head.rest);
      SourceTailParses(form, middle.rest);
      SourceValid(Source(head.value.0, head.value.1, middle.value.0, middle.value.1, middle.value.2,
                         tail.value.0, tail.value.1, tail.value.2));
    }
  }
}
