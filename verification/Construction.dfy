/** The constructors seen from outside: the composite sort keys are the library's
    orders, and no constructor depends on how its lists were arranged. */
module Construction {
  import opened Core
  import opened Order
  import opened Wire
  import opened Model

  // ---- the orders, field by field ----------------------------------------------------

  predicate ProvenanceBefore(p: Provenance, q: Provenance) {
    || Less(p.document, q.document)
    || (p.document == q.document
        && (|| Less(p.path, q.path)
            || (p.path == q.path && (p.line < q.line || (p.line == q.line && p.column < q.column)))))
  }

  predicate StepBefore(x: Step, y: Step) {
    || Less(x.profile, y.profile)
    || (x.profile == y.profile
        && (|| x.kind.Code() < y.kind.Code()
            || (x.kind == y.kind
                && (Less(x.member, y.member) || (x.member == y.member && ProvenanceBefore(x.provenance, y.provenance))))))
  }

  predicate StepsBefore(xs: seq<Step>, ys: seq<Step>) {
    ys != [] && (xs == [] || StepBefore(xs[0], ys[0]) || (xs[0] == ys[0] && StepsBefore(xs[1..], ys[1..])))
  }

  predicate OriginBefore(o: Origin, p: Origin) {
    ProvenanceBefore(o.declaration, p.declaration) || (o.declaration == p.declaration && StepsBefore(o.expansion, p.expansion))
  }

  lemma ProvenanceOrder(p: Provenance, q: Provenance, a: seq<int>, b: seq<int>)
    ensures Less(ProvenanceKey(p) + a, ProvenanceKey(q) + b) == (ProvenanceBefore(p, q) || (p == q && Less(a, b)))
    ensures ProvenanceKey(p) + a == ProvenanceKey(q) + b ==> p == q && a == b
  {
    hide Closed;
    var u, v := [p.line, p.column] + a, [q.line, q.column] + b;
    assert ProvenanceKey(p) + a == Closed(p.document) + (Closed(p.path) + u);
    assert ProvenanceKey(q) + b == Closed(q.document) + (Closed(q.path) + v);
    ClosedIsTie(p.document, q.document, Closed(p.path) + u, Closed(q.path) + v);
    ClosedIsTie(p.path, q.path, u, v);
    assert u[1..] == [p.column] + a && v[1..] == [q.column] + b && u[2..] == a && v[2..] == b;
    assert u[1..][1..] == a && v[1..][1..] == b;
  }

  lemma StepOrder(x: Step, y: Step, a: seq<int>, b: seq<int>)
    ensures Less(StepKey(x) + a, StepKey(y) + b) == (StepBefore(x, y) || (x == y && Less(a, b)))
    ensures StepKey(x) + a == StepKey(y) + b ==> x == y && a == b
  {
    hide Closed, ProvenanceKey, ProvenanceBefore;
    var m, n := Closed(x.member) + (ProvenanceKey(x.provenance) + a), Closed(y.member) + (ProvenanceKey(y.provenance) + b);
    var u, v := [x.kind.Code()] + m, [y.kind.Code()] + n;
    assert StepKey(x) + a == Closed(x.profile) + u;
    assert StepKey(y) + b == Closed(y.profile) + v;
    ClosedIsTie(x.profile, y.profile, u, v);
    assert u[1..] == m && v[1..] == n;
    ClosedIsTie(x.member, y.member, ProvenanceKey(x.provenance) + a, ProvenanceKey(y.provenance) + b);
    ProvenanceOrder(x.provenance, y.provenance, a, b);
  }

  lemma {:induction false} StepsOrder(xs: seq<Step>, ys: seq<Step>)
    ensures Less(StepsKey(xs), StepsKey(ys)) == StepsBefore(xs, ys)
    ensures StepsKey(xs) == StepsKey(ys) ==> xs == ys
  {
    StepNotEmpty(xs);
    StepNotEmpty(ys);
    hide StepKey, StepBefore;
    if xs != [] && ys != [] {
      StepOrder(xs[0], ys[0], StepsKey(xs[1..]), StepsKey(ys[1..]));
      StepsOrder(xs[1..], ys[1..]);
      assert xs == [xs[0]] + xs[1..] && ys == [ys[0]] + ys[1..];
    }
  }

  lemma StepNotEmpty(xs: seq<Step>)
    ensures xs != [] <==> StepsKey(xs) != []
  {
    if xs != [] { assert |StepKey(xs[0])| > 0; }
  }

  /** The sort key of requirement origins orders them as std::tie over their fields
      does, and origins with equal keys are equal. */
  lemma OriginOrder(o: Origin, p: Origin)
    ensures Less(OriginKey(o), OriginKey(p)) == OriginBefore(o, p)
    ensures OriginKey(o) == OriginKey(p) <==> o == p
  {
    hide ProvenanceKey, ProvenanceBefore, StepsKey, StepsBefore;
    ProvenanceOrder(o.declaration, p.declaration, StepsKey(o.expansion), StepsKey(p.expansion));
    StepsOrder(o.expansion, p.expansion);
  }

  // ---- when the constructors accept ----------------------------------------------------

  /** A requirement is made exactly from distinct origins, at least one, each of whose
      expansions is empty or ends at the required package; it keeps them in order. */
  lemma RequirementMade(package: Bytes, origins: seq<Origin>, r: Requirement)
    ensures MakeRequirement(package, origins) == Some(r)
       <==> && r.package == package && origins != []
            && multiset(r.origins) == multiset(origins) && Strict(OriginKey, r.origins)
            && forall o :: o in origins && o.expansion != [] ==>
                 var leaf := o.expansion[|o.expansion| - 1]; leaf.kind.PackageMember? && leaf.member == package
  {
    hide Normalize, Strict, OriginKey;
    NormalizeMeans(OriginKey, origins);
    NormalizeMembers(OriginKey, origins);
  }

  /** Metadata is made exactly from safe text and distinct nonempty licenses. */
  lemma MetadataMade(summary: Bytes, description: Option<Bytes>, homepage: Option<Bytes>, licenses: seq<Bytes>, m: Metadata)
    ensures MakeMetadata(summary, description, homepage, licenses) == Some(m)
       <==> && m.summary == summary && m.description == description && m.homepage == homepage
            && multiset(m.licenses) == multiset(licenses) && Strict(BytesKey, m.licenses)
            && LineSafe(summary) && (description.Some? ==> TextSafe(description.value))
            && (homepage.Some? ==> LineSafe(homepage.value))
            && licenses != [] && forall x :: x in licenses ==> LineSafe(x)
  {
    hide Normalize, Strict, LineSafe, TextSafe;
    NormalizeMeans(BytesKey, licenses);
  }

  /** An architecture binding is made exactly when each side is undeclared or declares
      what was selected, without repetition. */
  lemma ArchitecturesMade(declaredBuild: seq<Bytes>, declaredTarget: seq<Bytes>, b: Bytes, t: Bytes, a: Architectures)
    ensures MakeArchitectures(declaredBuild, declaredTarget, b, t) == Some(a)
       <==> && multiset(a.declaredBuild) == multiset(declaredBuild) && Strict(BytesKey, a.declaredBuild)
            && multiset(a.declaredTarget) == multiset(declaredTarget) && Strict(BytesKey, a.declaredTarget)
            && a.selectedBuild == b && (declaredBuild != [] ==> b in declaredBuild)
            && a.selectedTarget == t && (declaredTarget != [] ==> t in declaredTarget)
  {
    hide Normalize, Strict;
    NormalizeMeans(BytesKey, declaredBuild);
    NormalizeMembers(BytesKey, declaredBuild);
    NormalizeMeans(BytesKey, declaredTarget);
    NormalizeMembers(BytesKey, declaredTarget);
    assert forall s: seq<Bytes> :: s == [] <==> |s| == 0;
  }

  /** A selected profile is made exactly from distinct declarations, at least one. */
  lemma SelectedProfileMade(profile: Bytes, identity: Digest, declarations: seq<Provenance>, p: SelectedProfile)
    ensures MakeSelectedProfile(profile, identity, declarations) == Some(p)
       <==> && p.profile == profile && p.identity == identity && declarations != []
            && multiset(p.declarations) == multiset(declarations) && Strict(ProvenanceKey, p.declarations)
  {
    hide Normalize, Strict, ProvenanceKey;
    NormalizeMeans(ProvenanceKey, declarations);
  }

  /** A source record carries what it was made from, each list in its order. */
  lemma SourceMade(s: Source, made: Source)
    ensures MakeSource(s.release, s.metadata, s.runtime, s.programs, s.lifecycle, s.architectures, s.profiles, s.snapshot) == Some(made)
       <==> && multiset(made.runtime) == multiset(s.runtime) && Strict(PackageKey, made.runtime)
            && multiset(made.programs) == multiset(s.programs) && Strict(ActionKey, made.programs)
            && multiset(made.lifecycle) == multiset(s.lifecycle) && Strict(LifecycleKey, made.lifecycle)
            && multiset(made.profiles) == multiset(s.profiles) && Strict(ProfileKey, made.profiles)
            && made == s.(runtime := made.runtime, programs := made.programs, lifecycle := made.lifecycle, profiles := made.profiles)
  {
    hide Normalize, NormalizePrograms, Strict;
    ProgramsByAction(s.programs);
    NormalizeMeans(PackageKey, s.runtime);
    NormalizeMeans(ActionKey, s.programs);
    NormalizeMeans(LifecycleKey, s.lifecycle);
    NormalizeMeans(ProfileKey, s.profiles);
  }

  /** An installation receipt carries what it was made from, the manifest in path order. */
  lemma ReceiptMade(r: Receipt, manifest: seq<Entry>)
    ensures MakeReceipt(r.control, r.binding, manifest, r.plan, r.evidence, r.transaction) == Some(r)
       <==> multiset(r.manifest) == multiset(manifest) && Strict(PathKey, r.manifest)
  {
    hide Normalize, Strict;
    NormalizeMeans(PathKey, manifest);
  }

  // ---- arrangements ----------------------------------------------------------------------

  /** A source record depends on none of its four lists' arrangements, and making it
      fails exactly when some list has two values with one key. */
  lemma SourceIgnoresOrder(s: Source, runtime: seq<Requirement>, programs: seq<Program>,
                           lifecycle: seq<LifecycleRequirement>, profiles: seq<SelectedProfile>)
    requires multiset(runtime) == multiset(s.runtime) && multiset(programs) == multiset(s.programs)
    requires multiset(lifecycle) == multiset(s.lifecycle) && multiset(profiles) == multiset(s.profiles)
    ensures MakeSource(s.release, s.metadata, runtime, programs, lifecycle, s.architectures, profiles, s.snapshot)
         == MakeSource(s.release, s.metadata, s.runtime, s.programs, s.lifecycle, s.architectures, s.profiles, s.snapshot)
    ensures MakeSource(s.release, s.metadata, runtime, programs, lifecycle, s.architectures, profiles, s.snapshot).Some?
       <==> && DistinctKeys(PackageKey, s.runtime) && DistinctKeys(ActionKey, s.programs)
            && DistinctKeys(LifecycleKey, s.lifecycle) && DistinctKeys(ProfileKey, s.profiles)
  {
    hide Normalize, NormalizePrograms, DistinctKeys;
    ProgramsByAction(programs);
    ProgramsByAction(s.programs);
    NormalizeIgnoresOrder(PackageKey, runtime, s.runtime);
    NormalizeIgnoresOrder(ActionKey, programs, s.programs);
    NormalizeIgnoresOrder(LifecycleKey, lifecycle, s.lifecycle);
    NormalizeIgnoresOrder(ProfileKey, profiles, s.profiles);
    NormalizeFails(PackageKey, s.runtime);
    NormalizeFails(ActionKey, s.programs);
    NormalizeFails(LifecycleKey, s.lifecycle);
    NormalizeFails(ProfileKey, s.profiles);
  }

  /** Two installation receipts made from the same parts with their manifests in any
      arrangement are equal, or both are refused for a repeated path. */
  lemma ReceiptIgnoresOrder(control: Control, binding: Binding, a: seq<Entry>, b: seq<Entry>,
                            plan: Digest, evidence: Digest, transaction: Option<Digest>)
    requires multiset(a) == multiset(b)
    ensures MakeReceipt(control, binding, a, plan, evidence, transaction) == MakeReceipt(control, binding, b, plan, evidence, transaction)
    ensures MakeReceipt(control, binding, a, plan, evidence, transaction).Some? <==> DistinctKeys(PathKey, a)
  {
    hide Normalize, DistinctKeys;
    NormalizeIgnoresOrder(PathKey, a, b);
    NormalizeFails(PathKey, a);
  }

  // ---- the lifecycle search ----------------------------------------------------------------

  /** Binary search by action finds the one program for it. */
  method LifecycleProgram(s: Source, action: LifecycleAction) returns (found: Option<Program>)
    requires s.Valid()
    ensures found.Some? ==> found.value in s.programs && found.value.action == action
    ensures found.None? ==> forall p :: p in s.programs ==> p.action != action
    ensures forall p :: p in s.programs && p.action == action ==> found == Some(p)
  {
    var wanted: seq<int> := [action.Code()];
    var k := LowerBound(ActionKey, s.programs, wanted);
    forall i | 0 <= i < |s.programs| && i != k ensures s.programs[i].action != action {
      LessTotal(wanted, wanted);
      if k < i { assert Less(ActionKey(s.programs[k]), ActionKey(s.programs[i])); }
    }
    if k < |s.programs| && s.programs[k].action == action {
      return Some(s.programs[k]);
    }
    return None;
  }
}
