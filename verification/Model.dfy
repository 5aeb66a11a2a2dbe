/** The immutable values of an installed package and their constructors.  A
    constructor that throws in the library is a function returning None here. */
module Model {
  import opened Core
  import opened Order
  import opened Wire
  import PackagePath

  // ---- text ---------------------------------------------------------------

  predicate AtomStart(c: Byte) { 97 <= c <= 122 }

  predicate AtomByte(c: Byte) { AtomStart(c) || 48 <= c <= 57 || c in [43, 46, 95, 45] }

  /** A canonical reference name; profile names carry a leading `@`. */
  predicate IsAtom(s: Bytes, at: bool) {
    var offset := if at then 1 else 0;
    && (at ==> s != [] && s[0] == 64)
    && offset < |s|
    && AtomStart(s[offset])
    && forall i :: offset < i < |s| ==> AtomByte(s[i])
  }

  predicate LineSafe(s: Bytes) {
    s != [] && forall i :: 0 <= i < |s| ==> s[i] >= 32 && s[i] != 127
  }

  predicate TextSafe(s: Bytes) {
    s != [] && forall i :: 0 <= i < |s| ==> (s[i] >= 32 || s[i] == 10 || s[i] == 9) && s[i] != 127
  }

  method CanonicalAtom(value: Bytes, allowAt: bool) returns (ok: bool)
    ensures ok == IsAtom(value, allowAt)
  {
    var offset := 0;
    if allowAt {
      if value == [] || value[0] != 64 {
        return false;
      }
      offset := 1;
    }
    if offset == |value| || !AtomStart(value[offset]) {
      return false;
    }
    var index := offset + 1;
    while index < |value|
      invariant offset < index <= |value|
      invariant forall i :: offset < i < index ==> AtomByte(value[i])
    {
      if !AtomByte(value[index]) {
        return false;
      }
      index := index + 1;
    }
    return true;
  }

  // ---- declarations and requirements ---------------------------------------

  datatype Provenance = Provenance(document: Bytes, path: Bytes, line: U32, column: U32) {
    predicate Valid() {
      Sized(document) && Sized(path) && LineSafe(document) && LineSafe(path) && line != 0 && column != 0
    }
  }

  datatype MemberKind = PackageMember | ProfileMember {
    function Code(): Byte { if PackageMember? then 1 else 2 }
  }

  datatype Step = Step(profile: Bytes, kind: MemberKind, member: Bytes, provenance: Provenance) {
    predicate Valid() {
      Sized(profile) && IsAtom(profile, true) && Sized(member) && IsAtom(member, kind.ProfileMember?) && provenance.Valid()
    }
  }

  datatype Origin = Origin(declaration: Provenance, expansion: seq<Step>) {
    predicate Valid() {
      declaration.Valid() && Sized(expansion) && forall x :: x in expansion ==> x.Valid()
    }

    /** An expansion ends at the package that the requirement names. */
    predicate LeadsTo(package: Bytes) {
      expansion != [] ==>
        var leaf := expansion[|expansion| - 1];
        leaf.kind.PackageMember? && leaf.member == package
    }
  }

  datatype Requirement = Requirement(package: Bytes, origins: seq<Origin>) {
    ghost predicate Valid() {
      && Sized(package) && IsAtom(package, false)
      && Sized(origins) && origins != []
      && (forall x :: x in origins ==> x.Valid() && x.LeadsTo(package))
      && Strict(OriginKey, origins)
    }
  }

  function MakeRequirement(package: Bytes, origins: seq<Origin>): Option<Requirement> {
    if origins == [] then None
    else
      var sorted :- Normalize(OriginKey, origins);
      if forall x :: x in sorted ==> x.LeadsTo(package) then Some(Requirement(package, sorted)) else None
  }

  // ---- source records --------------------------------------------------------

  datatype Release = Release(identity: Digest, name: Bytes, version: Bytes, number: U32) {
    predicate Valid() {
      Sized(name) && IsAtom(name, false) && Sized(version) && LineSafe(version) && 47 !in version && number != 0
    }
  }

  datatype Metadata = Metadata(summary: Bytes, description: Option<Bytes>, homepage: Option<Bytes>, licenses: seq<Bytes>) {
    ghost predicate Valid() {
      && Sized(summary) && LineSafe(summary)
      && (description.Some? ==> Sized(description.value) && TextSafe(description.value))
      && (homepage.Some? ==> Sized(homepage.value) && LineSafe(homepage.value))
      && Sized(licenses) && licenses != []
      && (forall x :: x in licenses ==> Sized(x) && LineSafe(x))
      && Strict(BytesKey, licenses)
    }
  }

  function MakeMetadata(summary: Bytes, description: Option<Bytes>, homepage: Option<Bytes>, licenses: seq<Bytes>): Option<Metadata> {
    if !LineSafe(summary) || (description.Some? && !TextSafe(description.value))
       || (homepage.Some? && !LineSafe(homepage.value)) || licenses == []
       || exists x :: x in licenses && !LineSafe(x) then None
    else
      var sorted :- Normalize(BytesKey, licenses);
      Some(Metadata(summary, description, homepage, sorted))
  }

  datatype LifecycleAction = PreInstall | PostInstall | PreRemove | PostRemove {
    function Code(): Byte {
      match this
      case PreInstall => 1
      case PostInstall => 2
      case PreRemove => 3
      case PostRemove => 4
    }
  }

  datatype ProgramLanguage = PosixShell

  datatype Program = Program(action: LifecycleAction, language: ProgramLanguage, material: Bytes) {
    predicate Valid() { Sized(material) && TextSafe(material) }
  }

  datatype LifecycleRequirement = LifecycleRequirement(action: LifecycleAction, requirement: Requirement)

  datatype Architectures = Architectures(declaredBuild: seq<Bytes>, declaredTarget: seq<Bytes>,
                                         selectedBuild: Bytes, selectedTarget: Bytes) {
    ghost predicate Valid() {
      && ValidNames(declaredBuild) && Strict(BytesKey, declaredBuild)
      && ValidNames(declaredTarget) && Strict(BytesKey, declaredTarget)
      && Sized(selectedBuild) && IsAtom(selectedBuild, false)
      && Sized(selectedTarget) && IsAtom(selectedTarget, false)
      && (declaredBuild != [] ==> selectedBuild in declaredBuild)
      && (declaredTarget != [] ==> selectedTarget in declaredTarget)
    }
  }

  predicate ValidNames(names: seq<Bytes>) {
    Sized(names) && forall x :: x in names ==> Sized(x) && IsAtom(x, false)
  }

  function MakeArchitectures(declaredBuild: seq<Bytes>, declaredTarget: seq<Bytes>,
                             selectedBuild: Bytes, selectedTarget: Bytes): Option<Architectures> {
    var build :- Normalize(BytesKey, declaredBuild);
    var target :- Normalize(BytesKey, declaredTarget);
    if build != [] && selectedBuild !in build then None
    else if target != [] && selectedTarget !in target then None
    else Some(Architectures(build, target, selectedBuild, selectedTarget))
  }

  datatype SelectedProfile = SelectedProfile(profile: Bytes, identity: Digest, declarations: seq<Provenance>) {
    ghost predicate Valid() {
      && Sized(profile) && IsAtom(profile, true)
      && Sized(declarations) && declarations != []
      && (forall x :: x in declarations ==> x.Valid())
      && Strict(ProvenanceKey, declarations)
    }
  }

  function MakeSelectedProfile(profile: Bytes, identity: Digest, declarations: seq<Provenance>): Option<SelectedProfile> {
    if declarations == [] then None
    else
      var sorted :- Normalize(ProvenanceKey, declarations);
      Some(SelectedProfile(profile, identity, sorted))
  }

  datatype Source = Source(release: Release, metadata: Metadata, runtime: seq<Requirement>, programs: seq<Program>,
                           lifecycle: seq<LifecycleRequirement>, architectures: Architectures,
                           profiles: seq<SelectedProfile>, snapshot: Digest) {
    ghost predicate Parts() {
      && release.Valid() && metadata.Valid() && architectures.Valid()
      && Sized(runtime) && (forall x :: x in runtime ==> x.Valid())
      && Sized(programs) && (forall x :: x in programs ==> x.Valid())
      && Sized(lifecycle) && (forall x :: x in lifecycle ==> x.requirement.Valid())
      && Sized(profiles) && (forall x :: x in profiles ==> x.Valid())
    }

    ghost predicate Valid() {
      && Parts()
      && Strict(PackageKey, runtime) && Strict(ActionKey, programs)
      && Strict(LifecycleKey, lifecycle) && Strict(ProfileKey, profiles)
    }
  }

  /** Programs are sorted by all their fields, but compared by action alone. */
  function NormalizePrograms(programs: seq<Program>): Option<seq<Program>> {
    var sorted := SortBy(ProgramKey, programs);
    if DistinctNeighbours(ActionKey, sorted) then Some(sorted) else None
  }

  function MakeSource(release: Release, metadata: Metadata, runtime: seq<Requirement>, programs: seq<Program>,
                      lifecycle: seq<LifecycleRequirement>, architectures: Architectures,
                      profiles: seq<SelectedProfile>, snapshot: Digest): Option<Source> {
    var sortedRuntime :- Normalize(PackageKey, runtime);
    var sortedPrograms :- NormalizePrograms(programs);
    var sortedLifecycle :- Normalize(LifecycleKey, lifecycle);
    var sortedProfiles :- Normalize(ProfileKey, profiles);
    Some(Source(release, metadata, sortedRuntime, sortedPrograms, sortedLifecycle, architectures, sortedProfiles, snapshot))
  }

  // ---- the orders of the sorted collections ----------------------------------

  function BytesKey(b: Bytes): seq<int> { b }
  function ProvenanceKey(p: Provenance): seq<int> { Closed(p.document) + (Closed(p.path) + [p.line, p.column]) }
  function StepKey(x: Step): seq<int> {
    Closed(x.profile) + ([x.kind.Code()] + (Closed(x.member) + ProvenanceKey(x.provenance)))
  }
  function StepsKey(xs: seq<Step>): seq<int> { if xs == [] then [] else StepKey(xs[0]) + StepsKey(xs[1..]) }
  function OriginKey(o: Origin): seq<int> { ProvenanceKey(o.declaration) + StepsKey(o.expansion) }
  function PackageKey(r: Requirement): seq<int> { r.package }
  function ActionKey(p: Program): seq<int> { [p.action.Code()] }
  function ProgramKey(p: Program): seq<int> { [p.action.Code(), 1] + p.material }
  function LifecycleKey(r: LifecycleRequirement): seq<int> { [r.action.Code()] + r.requirement.package }
  function ProfileKey(p: SelectedProfile): seq<int> { p.profile }
  function PathKey(e: Entry): seq<int> { e.path }

  // ---- installed control -------------------------------------------------------

  /** The four shapes that an installation reason can have. */
  datatype Reason =
    | ExplicitRequest
    | RuntimeDependency(package: Bytes)
    | ProfileMembership(profile: Bytes, identity: Digest)
    | SystemPolicy(policy: Bytes)
  {
    predicate Valid() {
      match this
      case ExplicitRequest => true
      case RuntimeDependency(p) => Sized(p) && IsAtom(p, false)
      case ProfileMembership(p, _) => Sized(p) && IsAtom(p, true)
      case SystemPolicy(p) => Sized(p) && LineSafe(p)
    }

    function Code(): Byte {
      match this
      case ExplicitRequest => 1
      case RuntimeDependency(_) => 2
      case ProfileMembership(_, _) => 3
      case SystemPolicy(_) => 4
    }
  }

  /** `build` holds the fourteen identities of the build provenance, the source
      record's identity first. */
  datatype Control = Control(source: Source, reason: Reason, build: seq<Digest>)

  const BUILD_DIGESTS := 14

  // ---- ownership -----------------------------------------------------------------

  datatype ObjectKind = Regular | Directory | Symlink | Fifo | CharacterDevice | BlockDevice | Socket | Other {
    function Code(): Byte {
      match this
      case Regular => 1
      case Directory => 2
      case Symlink => 3
      case Fifo => 4
      case CharacterDevice => 5
      case BlockDevice => 6
      case Socket => 7
      case Other => 8
    }
  }

  datatype Device = Device(major: U64, minor: U64)

  datatype ObjectMetadata = ObjectMetadata(kind: ObjectKind, mode: U32, uid: U64, gid: U64, seconds: I64, nanoseconds: U32,
                           size: Option<U64>, content: Option<Digest>, symlink: Option<Bytes>,
                           device: Option<Device>, anchor: Option<Bytes>) {
    predicate Valid() {
      && nanoseconds < 1_000_000_000
      && mode < 0x1000
      && (kind.Regular? <==> size.Some?)
      && (kind.Regular? <==> content.Some?)
      && (anchor.Some? ==> kind.Regular? && Sized(anchor.value) && PackagePath.IsPath(anchor.value))
      && (kind.Symlink? <==> symlink.Some?)
      && (symlink.Some? ==> Sized(symlink.value) && LineSafe(symlink.value))
      && (kind.CharacterDevice? || kind.BlockDevice? <==> device.Some?)
    }
  }

  datatype ActiveOrigin = IncomingPayload | RetainedExisting {
    function Code(): Byte { if IncomingPayload? then 1 else 2 }
  }

  datatype RejectedSide = Incoming | PriorInstalled {
    function Code(): Byte { if Incoming? then 1 else 2 }
  }

  datatype Rejection = Rejection(side: RejectedSide, identity: Digest)

  datatype Entry = Entry(path: Bytes, metadata: ObjectMetadata, origin: ActiveOrigin, rejected: Option<Rejection>) {
    predicate Valid() { Sized(path) && PackagePath.IsPath(path) && metadata.Valid() }
  }

  // ---- targets, receipts and packages -----------------------------------------------

  datatype Binding = Binding(target: Digest, store: Digest, root: Digest, backend: Digest, domain: Digest)

  datatype Receipt = Receipt(control: Control, binding: Binding, manifest: seq<Entry>,
                             plan: Digest, evidence: Digest, transaction: Option<Digest>)

  /** Sorts the manifest by path and refuses a path that occurs twice. */
  function MakeReceipt(control: Control, binding: Binding, manifest: seq<Entry>,
                       plan: Digest, evidence: Digest, transaction: Option<Digest>): Option<Receipt> {
    var sorted :- Normalize(PathKey, manifest);
    Some(Receipt(control, binding, sorted, plan, evidence, transaction))
  }

  datatype Package = Package(receipt: Receipt) {
    function Name(): Bytes { receipt.control.source.release.name }
    function Binding(): Binding { receipt.binding }
    function Manifest(): seq<Entry> { receipt.manifest }
  }

  function NameKey(p: Package): seq<int> { p.Name() }

  // ---- what the constructors give and what they leave alone ----------------------------

  // On a value already in normal form every constructor is the identity.

  lemma RequirementFixed(r: Requirement)
    requires r.Valid()
    ensures MakeRequirement(r.package, r.origins) == Some(r)
  {
    NormalizeFixes(OriginKey, r.origins);
  }

  lemma MetadataFixed(m: Metadata)
    requires m.Valid()
    ensures MakeMetadata(m.summary, m.description, m.homepage, m.licenses) == Some(m)
  {
    NormalizeFixes(BytesKey, m.licenses);
  }

  lemma ArchitecturesFixed(a: Architectures)
    requires a.Valid()
    ensures MakeArchitectures(a.declaredBuild, a.declaredTarget, a.selectedBuild, a.selectedTarget) == Some(a)
  {
    NormalizeFixes(BytesKey, a.declaredBuild);
    NormalizeFixes(BytesKey, a.declaredTarget);
  }

  lemma SelectedProfileFixed(p: SelectedProfile)
    requires p.Valid()
    ensures MakeSelectedProfile(p.profile, p.identity, p.declarations) == Some(p)
  {
    NormalizeFixes(ProvenanceKey, p.declarations);
  }

  lemma SourceFixed(s: Source)
    requires s.Valid()
    ensures MakeSource(s.release, s.metadata, s.runtime, s.programs, s.lifecycle, s.architectures, s.profiles, s.snapshot) == Some(s)
  {
    NormalizeFixes(PackageKey, s.runtime);
    ProgramsByAction(s.programs);
    NormalizeFixes(ActionKey, s.programs);
    NormalizeFixes(LifecycleKey, s.lifecycle);
    NormalizeFixes(ProfileKey, s.profiles);
  }

  /** Sorting programs by every field and then refusing a repeated action is
      normalizing them by action. */
  lemma ProgramsByAction(programs: seq<Program>)
    ensures NormalizePrograms(programs) == Normalize(ActionKey, programs)
  {
    hide SortBy;
    var sorted := SortBy(ProgramKey, programs);
    SortSorts(ProgramKey, programs);
    NormalizeMeans(ActionKey, programs);
    if DistinctNeighbours(ActionKey, sorted) {
      forall i, j | 0 <= i < j < |sorted| ensures !Less(ActionKey(sorted[j]), ActionKey(sorted[i])) {
        assert !Less(ProgramKey(sorted[j]), ProgramKey(sorted[i]));
      }
      AscendingDistinct(ActionKey, sorted);
      assert Strict(ActionKey, sorted);
    }
    if Normalize(ActionKey, programs).Some? {
      var s := Normalize(ActionKey, programs).value;
      forall i, j | 0 <= i < j < |s| ensures Less(ProgramKey(s[i]), ProgramKey(s[j])) {
        assert Less(ActionKey(s[i]), ActionKey(s[j]));
        LessTotal(ActionKey(s[i])[1..], ActionKey(s[j])[1..]);
        assert ProgramKey(s[i])[0] < ProgramKey(s[j])[0];
      }
      AscendingUnique(ProgramKey, s, sorted);
      assert Strict(ActionKey, sorted);
      forall i | 0 < i < |sorted| ensures ActionKey(sorted[i - 1]) != ActionKey(sorted[i]) {
        LessTotal(ActionKey(sorted[i - 1]), ActionKey(sorted[i]));
      }
    }
  }

  /** Values built from valid parts are valid. */
  lemma RequirementValid(package: Bytes, origins: seq<Origin>)
    requires Sized(package) && IsAtom(package, false) && Sized(origins) && forall x :: x in origins ==> x.Valid()
    ensures var r := MakeRequirement(package, origins); r.Some? ==> r.value.Valid()
  {
    NormalizeMeans(OriginKey, origins);
    NormalizeMembers(OriginKey, origins);
  }

  lemma MetadataValid(summary: Bytes, description: Option<Bytes>, homepage: Option<Bytes>, licenses: seq<Bytes>)
    requires Sized(summary) && (description.Some? ==> Sized(description.value)) && (homepage.Some? ==> Sized(homepage.value))
    requires Sized(licenses) && forall x :: x in licenses ==> Sized(x)
    ensures var r := MakeMetadata(summary, description, homepage, licenses); r.Some? ==> r.value.Valid()
  {
    NormalizeMeans(BytesKey, licenses);
    NormalizeMembers(BytesKey, licenses);
  }

  lemma ArchitecturesValid(build: seq<Bytes>, target: seq<Bytes>, b: Bytes, t: Bytes)
    requires ValidNames(build) && ValidNames(target)
    requires Sized(b) && IsAtom(b, false) && Sized(t) && IsAtom(t, false)
    ensures var r := MakeArchitectures(build, target, b, t); r.Some? ==> r.value.Valid()
  {
    NormalizeMeans(BytesKey, build);
    NormalizeMembers(BytesKey, build);
    NormalizeMeans(BytesKey, target);
    NormalizeMembers(BytesKey, target);
  }

  lemma SelectedProfileValid(profile: Bytes, identity: Digest, declarations: seq<Provenance>)
    requires Sized(profile) && IsAtom(profile, true) && Sized(declarations) && forall x :: x in declarations ==> x.Valid()
    ensures var r := MakeSelectedProfile(profile, identity, declarations); r.Some? ==> r.value.Valid()
  {
    NormalizeMeans(ProvenanceKey, declarations);
    NormalizeMembers(ProvenanceKey, declarations);
  }

  lemma SourceValid(s: Source)
    requires s.Parts()
    ensures var r := MakeSource(s.release, s.metadata, s.runtime, s.programs, s.lifecycle, s.architectures, s.profiles, s.snapshot);
            r.Some? ==> r.value.Valid()
  {
    NormalizeMeans(PackageKey, s.runtime);
    NormalizeMembers(PackageKey, s.runtime);
    ProgramsByAction(s.programs);
    NormalizeMeans(ActionKey, s.programs);
    NormalizeMembers(ActionKey, s.programs);
    NormalizeMeans(LifecycleKey, s.lifecycle);
    NormalizeMembers(LifecycleKey, s.lifecycle);
    NormalizeMeans(ProfileKey, s.profiles);
    NormalizeMembers(ProfileKey, s.profiles);
  }

  lemma NormalizeMembers<T>(key: T -> seq<int>, s: seq<T>)
    ensures Normalize(key, s).Some? ==> forall x :: x in Normalize(key, s).value <==> x in s
  {
    NormalizeMeans(key, s);
    if Normalize(key, s).Some? {
      var t := Normalize(key, s).value;
      assert forall x :: x in t <==> x in multiset(t);
      assert forall x :: x in s <==> x in multiset(s);
    }
  }
}
