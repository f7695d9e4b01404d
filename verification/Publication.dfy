/** The representation publish spec and its wire form (tensorcast/types.py).
    Manifest decoding is a parameter: `decode` stands for
    `RuntimeArtifactManifest.from_bytes`, None for a payload it rejects. */
module Publication {
  import opened Common
  import opened Text
  import opened Assembly

  type byte = b: int | 0 <= b < 256

  // ----- the validated models

  datatype BindingValueRef = BindingValueRef(bindingId: string, layoutId: string, valueId: string, sealGeneration: int) {
    predicate Valid() { bindingId != "" && layoutId != "" && valueId != "" && sealGeneration >= 0 }
  }

  datatype Subject = Subject(artifactId: Option<string>, bindingRef: Option<BindingValueRef>) {
    predicate Valid() {
      && (artifactId.Some? ==> artifactId.value != "")
      && (bindingRef.Some? ==> bindingRef.value.Valid())
      && (artifactId.None? <==> bindingRef.Some?)
    }
  }

  const TENSOR_PREFIX := "tensor:"

  /** `parse_serving_manifest_ref`: the tensor name, if the reference is well formed. */
  function ParseManifestRef(ref: string): Option<string> {
    var value := Strip(ref);
    if !(TENSOR_PREFIX <= value) then None
    else
      var name := Strip(value[|TENSOR_PREFIX|..]);
      OrNone(name)
  }

  datatype BuilderMode = PureTransform | BindingFinalize

  datatype Manifest = Manifest(
    frameworkName: string,
    contractHash: string,
    buildDigest: string,
    buildDigestVersion: string,
    tensorSchemaHash: string,
    manifestRef: string,
    builderMode: BuilderMode)

  datatype Contract = Contract(
    subject: Subject,
    manifestRef: string,
    contractHash: string,
    buildDigest: string,
    buildDigestVersion: Option<string>)
  {
    predicate Valid() {
      && subject.Valid()
      && ParseManifestRef(manifestRef).Some?
      && contractHash != "" && buildDigest != ""
      && (buildDigestVersion.Some? ==> buildDigestVersion.value != "")
    }

    predicate MatchesManifest(m: Manifest) {
      && m.manifestRef == manifestRef
      && m.contractHash == contractHash
      && m.buildDigest == buildDigest
      && (buildDigestVersion.Some? ==> m.buildDigestVersion == buildDigestVersion.value)
    }
  }

  datatype CloseoutKind = SourcePublishOnly | RepresentationPublish | RolloutGatedPublish

  datatype Closeout = Closeout(
    kind: CloseoutKind,
    digest: string,
    sourceVersionKey: Option<string>,
    servingVersionKey: Option<string>,
    artifactId: Option<string>,
    manifestRef: Option<string>,
    contract: Option<Contract>)
  {
    predicate Valid() {
      && (contract.Some? ==> contract.value.Valid())
      && match kind
         case SourcePublishOnly =>
           servingVersionKey.None? && artifactId.None? && manifestRef.None? && contract.None?
         case RepresentationPublish =>
           && contract.Some? && artifactId.None?
           && (manifestRef.Some? ==> manifestRef.value == contract.value.manifestRef)
         case RolloutGatedPublish => true
    }
  }

  datatype FinalizeClass = RuntimeOnly | RepresentationChanging | UnknownBlocked

  datatype SupportLevel = Blocked | SourceBindBootstrapOnly | BuilderPublicationReady | RuntimeBindSwapReady

  datatype AdmissionFacts = AdmissionFacts(
    finalizeClass: FinalizeClass,
    supportLevel: SupportLevel,
    topologyDigest: Option<string>,
    fastPathValidated: bool)
  {
    /** A blank digest is turned into None before validation, so a model never holds one. */
    predicate Valid() {
      && (topologyDigest.Some? ==> Strip(topologyDigest.value) != "")
      && (finalizeClass.RepresentationChanging? ==> fastPathValidated)
    }

    predicate AdmitsPublish(mode: BuilderMode) {
      && !finalizeClass.UnknownBlocked?
      && (supportLevel.BuilderPublicationReady? || supportLevel.RuntimeBindSwapReady?)
      && (mode.PureTransform? ==> !finalizeClass.RepresentationChanging?)
      && (mode.BindingFinalize? ==> finalizeClass.RepresentationChanging? && fastPathValidated)
    }
  }

  datatype LivenessMode = RequireLiveUntilCut | AllowDurableOccupancy

  type Decoder = seq<byte> -> Option<Manifest>

  datatype Spec = Spec(
    artifactId: Option<string>,
    manifestRef: string,
    manifest: Manifest,
    manifestBytes: seq<byte>,
    canonicalIndex: Option<seq<byte>>,
    contract: Contract,
    closeout: Closeout,
    sourceArtifactRef: Option<string>,
    contractFamily: Option<string>,
    structuralViewIds: seq<string>,
    layoutId: Option<string>,
    requirements: Option<RequirementSet>,
    readiness: Option<LivenessMode>,
    facts: Option<AdmissionFacts>)
  {
    predicate Valid(decode: Decoder) {
      && contract.Valid() && closeout.Valid()
      && (facts.Some? ==> facts.value.Valid())
      && (requirements.Some? ==> requirements.value.Valid())
      && ParseManifestRef(manifestRef).Some?
      && (contractFamily.Some? ==> contractFamily.value in {"pp", "ep", "canonical_full"})
      && decode(manifestBytes) == Some(manifest)
      && contract.MatchesManifest(manifest)
      && manifestRef == manifest.manifestRef == contract.manifestRef
      && (contract.subject.artifactId.Some? ==> artifactId == None || artifactId == contract.subject.artifactId)
      && (contract.subject.artifactId.None? ==> artifactId == None)
      && (manifest.builderMode.BindingFinalize? ==> contract.subject.bindingRef.Some? && facts.Some?)
      && closeout.kind == RepresentationPublish
      && closeout.contract == Some(contract)
      && (facts.Some? ==> facts.value.AdmitsPublish(manifest.builderMode)
                          && (closeout.servingVersionKey.Some? ==> facts.value.supportLevel.RuntimeBindSwapReady?))
    }
  }

  // ----- the messages of publication.proto; unset scalar fields hold their default

  type uint64 = n: int | 0 <= n < 0x1_0000_0000_0000_0000

  datatype BindingMsg = BindingMsg(bindingId: string, layoutId: string, valueId: string, sealGeneration: uint64)

  datatype SubjectMsg = NoRef | ArtifactRef(id: string) | BindingRef(ref: BindingMsg)

  datatype ContractMsg = ContractMsg(
    artifactId: string, manifestRef: string, contractHash: string, buildDigest: string, buildDigestVersion: string,
    subject: Option<SubjectMsg>)

  datatype TargetMsg = TargetMsg(kind: int, viewId: string)

  datatype RequirementMsg = RequirementMsg(slotId: string, target: TargetMsg, coverage: string)

  datatype RequirementSetMsg = RequirementSetMsg(digest: string, count: uint64, carrier: string, inline: seq<RequirementMsg>)

  datatype FactsMsg = FactsMsg(finalizeClass: int, supportLevel: int, topologyDigest: string, fastPathValidated: bool)

  datatype SpecMsg = SpecMsg(
    layoutId: string,
    requirements: Option<RequirementSetMsg>,
    readiness: Option<int>,
    sourceVersionKey: string,
    servingVersionKey: string,
    contract: ContractMsg,
    manifestBytes: seq<byte>,
    sourceArtifactRef: string,
    contractFamily: string,
    structuralViewIds: seq<string>,
    facts: Option<FactsMsg>)

  const UINT64_LIMIT: int := 0x1_0000_0000_0000_0000

  // ----- to_proto

  function TargetToMsg(t: TargetRef): TargetMsg {
    TargetMsg(if t.kind.StructuralView? then 1 else 2, OrEmpty(t.viewId))
  }

  function RequirementToMsg(r: Requirement): RequirementMsg {
    RequirementMsg(r.slotId, TargetToMsg(r.target), r.coverage)
  }

  function InlineToMsg(rs: seq<Requirement>): (ms: seq<RequirementMsg>)
    ensures |ms| == |rs|
  {
    seq(|rs|, i requires 0 <= i < |rs| => RequirementToMsg(rs[i]))
  }

  function EffectiveCount(rs: RequirementSet): nat {
    if rs.count > 0 then rs.count else |rs.inline|
  }

  function RequirementsToMsg(rs: RequirementSet): RequirementSetMsg
    requires EffectiveCount(rs) < UINT64_LIMIT
  {
    RequirementSetMsg(rs.digest, EffectiveCount(rs), rs.carrier, InlineToMsg(rs.inline))
  }

  function SubjectToMsg(s: Subject): SubjectMsg
    requires s.Valid() && (s.bindingRef.Some? ==> s.bindingRef.value.sealGeneration < UINT64_LIMIT)
  {
    if s.artifactId.Some? then ArtifactRef(s.artifactId.value)
    else
      var b := s.bindingRef.value;
      BindingRef(BindingMsg(b.bindingId, b.layoutId, b.valueId, b.sealGeneration))
  }

  function ContractToMsg(c: Contract): ContractMsg
    requires c.Valid()
    requires c.subject.bindingRef.Some? ==> c.subject.bindingRef.value.sealGeneration < UINT64_LIMIT
  {
    ContractMsg(OrEmpty(c.subject.artifactId), c.manifestRef, c.contractHash, c.buildDigest,
                OrEmpty(c.buildDigestVersion), Some(SubjectToMsg(c.subject)))
  }

  function LivenessToMsg(m: LivenessMode): int {
    if m.RequireLiveUntilCut? then 1 else 2
  }

  function FactsToMsg(f: AdmissionFacts): FactsMsg {
    FactsMsg(match f.finalizeClass case RuntimeOnly => 1 case RepresentationChanging => 2 case UnknownBlocked => 3,
             match f.supportLevel case Blocked => 1 case SourceBindBootstrapOnly => 2
             case BuilderPublicationReady => 3 case RuntimeBindSwapReady => 4,
             OrEmpty(f.topologyDigest), f.fastPathValidated)
  }

  /** The integers of the spec fit the unsigned 64-bit fields that carry them. */
  predicate Encodable(s: Spec) {
    && (s.requirements.Some? ==> EffectiveCount(s.requirements.value) < UINT64_LIMIT)
    && (s.contract.subject.bindingRef.Some? ==> s.contract.subject.bindingRef.value.sealGeneration < UINT64_LIMIT)
  }

  /** None stands for the ValueError that protobuf raises on an out-of-range integer. */
  function ToProto(s: Spec): Option<SpecMsg>
    requires s.contract.Valid()
  {
    if !Encodable(s) then None
    else Some(SpecMsg(
      OrEmpty(s.layoutId),
      if s.requirements.Some? then Some(RequirementsToMsg(s.requirements.value)) else None,
      if s.readiness.Some? then Some(LivenessToMsg(s.readiness.value)) else None,
      OrEmpty(s.closeout.sourceVersionKey),
      OrEmpty(s.closeout.servingVersionKey),
      ContractToMsg(s.contract),
      s.manifestBytes,
      OrEmpty(s.sourceArtifactRef),
      OrEmpty(s.contractFamily),
      s.structuralViewIds,
      if s.facts.Some? then Some(FactsToMsg(s.facts.value)) else None))
  }

  /** `to_proto` as it runs: an empty message, filled field by field, which fails on the
      first integer that does not fit. */
  method FillProto(s: Spec) returns (m: Option<SpecMsg>)
    requires s.contract.Valid()
    ensures m.Some? <==> Encodable(s)
    ensures m == ToProto(s)
  {
    var proto := SpecMsg("", None, None, "", "", ContractMsg("", "", "", "", "", None), s.manifestBytes, "", "", [], None);
    proto := FillTexts(proto, s);
    if s.requirements.Some? {
      if EffectiveCount(s.requirements.value) >= UINT64_LIMIT {
        return None;
      }
      proto := proto.(requirements := Some(RequirementsToMsg(s.requirements.value)));
    }
    if s.readiness.Some? {
      proto := proto.(readiness := Some(LivenessToMsg(s.readiness.value)));
    }
    if s.contract.subject.bindingRef.Some? && s.contract.subject.bindingRef.value.sealGeneration >= UINT64_LIMIT {
      return None;
    }
    proto := proto.(contract := ContractToMsg(s.contract));
    if s.facts.Some? {
      proto := proto.(facts := Some(FactsToMsg(s.facts.value)));
    }
    m := Some(proto);
  }

  method FillTexts(empty: SpecMsg, s: Spec) returns (proto: SpecMsg)
    requires empty.layoutId == empty.sourceVersionKey == empty.servingVersionKey == empty.sourceArtifactRef == ""
    requires empty.contractFamily == "" && empty.structuralViewIds == []
    ensures proto == empty.(layoutId := OrEmpty(s.layoutId),
                            sourceVersionKey := OrEmpty(s.closeout.sourceVersionKey),
                            servingVersionKey := OrEmpty(s.closeout.servingVersionKey),
                            sourceArtifactRef := OrEmpty(s.sourceArtifactRef),
                            contractFamily := OrEmpty(s.contractFamily),
                            structuralViewIds := s.structuralViewIds)
  {
    proto := empty;
    if s.layoutId.Some? {
      proto := proto.(layoutId := s.layoutId.value);
    }
    if s.closeout.sourceVersionKey.Some? {
      proto := proto.(sourceVersionKey := s.closeout.sourceVersionKey.value);
    }
    if s.closeout.servingVersionKey.Some? {
      proto := proto.(servingVersionKey := s.closeout.servingVersionKey.value);
    }
    if s.sourceArtifactRef.Some? {
      proto := proto.(sourceArtifactRef := s.sourceArtifactRef.value);
    }
    if s.contractFamily.Some? {
      proto := proto.(contractFamily := s.contractFamily.value);
    }
    proto := proto.(structuralViewIds := proto.structuralViewIds + s.structuralViewIds);
  }

  // ----- from_proto; None stands for any exception

  function TargetFromMsg(m: TargetMsg): (t: Option<TargetRef>)
    ensures t.Some? ==> t.value.Valid()
  {
    if m.kind != 1 && m.kind != 2 then None
    else
      var t := TargetRef(if m.kind == 1 then StructuralView else CanonicalLayout, OrNone(m.viewId));
      if t.Valid() then Some(t) else None
  }

  function InlineFromMsg(ms: seq<RequirementMsg>): (rs: Option<seq<Requirement>>)
    ensures rs.Some? ==> forall r | r in rs.value :: r.target.Valid()
  {
    if ms == [] then Some([])
    else
      var t, rest := TargetFromMsg(ms[0].target), InlineFromMsg(ms[1..]);
      if t.None? || rest.None? then None
      else Some([Requirement(ms[0].slotId, t.value, ms[0].coverage)] + rest.value)
  }

  function RequirementsFromMsg(m: RequirementSetMsg): Option<RequirementSet> {
    var inline := InlineFromMsg(m.inline);
    if inline.None? then None
    else Some(RequirementSet(m.digest, m.count, if m.carrier == "" then "inline" else m.carrier, inline.value))
  }

  function SubjectFromMsg(m: SubjectMsg): Option<Subject> {
    var s :=
      match m
      case NoRef => Subject(None, None)
      case ArtifactRef(id) => Subject(Some(id), None)
      case BindingRef(b) => Subject(None, Some(BindingValueRef(b.bindingId, b.layoutId, b.valueId, b.sealGeneration)));
    if s.Valid() then Some(s) else None
  }

  function ContractFromMsg(m: ContractMsg): Option<Contract> {
    if m.subject.None? then None
    else
      var subject := SubjectFromMsg(m.subject.value);
      if subject.None? then None
      else
        var c := Contract(subject.value, m.manifestRef, m.contractHash, m.buildDigest, OrNone(m.buildDigestVersion));
        if c.Valid() then Some(c) else None
  }

  /** An unspecified mode reads as the default. */
  function LivenessFromMsg(n: int): Option<LivenessMode> {
    if n == 0 || n == 1 then Some(RequireLiveUntilCut) else if n == 2 then Some(AllowDurableOccupancy) else None
  }

  function FinalizeFromMsg(n: int): Option<FinalizeClass> {
    if n == 1 then Some(RuntimeOnly) else if n == 2 then Some(RepresentationChanging)
    else if n == 3 then Some(UnknownBlocked) else None
  }

  function SupportFromMsg(n: int): Option<SupportLevel> {
    if n == 1 then Some(Blocked) else if n == 2 then Some(SourceBindBootstrapOnly)
    else if n == 3 then Some(BuilderPublicationReady) else if n == 4 then Some(RuntimeBindSwapReady) else None
  }

  function FactsFromMsg(m: FactsMsg): Option<AdmissionFacts> {
    var fin, sup := FinalizeFromMsg(m.finalizeClass), SupportFromMsg(m.supportLevel);
    if fin.None? || sup.None? then None
    else
      var f := AdmissionFacts(fin.value, sup.value,
                              if Strip(m.topologyDigest) == "" then None else Some(m.topologyDigest), m.fastPathValidated);
      if f.Valid() then Some(f) else None
  }

  /** `from_proto` with its parts already read. */
  function Assemble(m: SpecMsg, c: Contract, manifest: Manifest, requirements: Option<RequirementSet>,
                    readiness: Option<LivenessMode>, facts: Option<AdmissionFacts>): Spec
  {
    var closeout := Closeout(RepresentationPublish, "", OrNone(m.sourceVersionKey), OrNone(m.servingVersionKey),
                             None, Some(c.manifestRef), Some(c));
    Spec(c.subject.artifactId, c.manifestRef, manifest, m.manifestBytes, None, c, closeout,
         OrNone(m.sourceArtifactRef), OrNone(m.contractFamily), m.structuralViewIds, OrNone(m.layoutId),
         requirements, readiness, facts)
  }

  function FromProto(m: SpecMsg, decode: Decoder): Option<Spec> {
    var contract := ContractFromMsg(m.contract);
    var manifest := decode(m.manifestBytes);
    var requirements := if m.requirements.Some? then RequirementsFromMsg(m.requirements.value) else None;
    var readiness := if m.readiness.Some? then LivenessFromMsg(m.readiness.value) else None;
    var facts := if m.facts.Some? then FactsFromMsg(m.facts.value) else None;
    if contract.None? || manifest.None?
       || (m.requirements.Some? && requirements.None?)
       || (m.readiness.Some? && readiness.None?)
       || (m.facts.Some? && facts.None?)
    then None
    else
      var s := Assemble(m, contract.value, manifest.value, requirements, readiness, facts);
      if s.Valid(decode) then Some(s) else None
  }

  // ----- the normal form

  function NoEmpty(o: Option<string>): Option<string> {
    if o == Some("") then None else o
  }

  function NormalRequirement(r: Requirement): Requirement {
    r.(target := r.target.(viewId := NoEmpty(r.target.viewId)))
  }

  function NormalInline(rs: seq<Requirement>): (ns: seq<Requirement>)
    ensures |ns| == |rs|
  {
    seq(|rs|, i requires 0 <= i < |rs| => NormalRequirement(rs[i]))
  }

  function NormalRequirements(rs: RequirementSet): RequirementSet {
    RequirementSet(rs.digest, EffectiveCount(rs), if rs.carrier == "" then "inline" else rs.carrier, NormalInline(rs.inline))
  }

  /** What one trip over the wire makes of a spec: the canonical index and the
      closeout digest are dropped, the artifact id, the closeout's manifest ref and
      the requirement defaults are filled in, and empty text becomes None. */
  function Normalize(s: Spec): Spec {
    s.(artifactId := s.contract.subject.artifactId,
       canonicalIndex := None,
       closeout := s.closeout.(digest := "",
                               sourceVersionKey := NoEmpty(s.closeout.sourceVersionKey),
                               servingVersionKey := NoEmpty(s.closeout.servingVersionKey),
                               manifestRef := Some(s.contract.manifestRef)),
       sourceArtifactRef := NoEmpty(s.sourceArtifactRef),
       layoutId := NoEmpty(s.layoutId),
       requirements := if s.requirements.Some? then Some(NormalRequirements(s.requirements.value)) else None)
  }

  lemma {:induction false} InlineRoundTrip(rs: seq<Requirement>)
    requires forall r | r in rs :: r.target.Valid()
    ensures InlineFromMsg(InlineToMsg(rs)) == Some(NormalInline(rs))
  {
    if rs != [] {
      assert InlineToMsg(rs)[1..] == InlineToMsg(rs[1..]);
      InlineRoundTrip(rs[1..]);
      assert NormalInline(rs) == [NormalRequirement(rs[0])] + NormalInline(rs[1..]);
      assert TargetFromMsg(TargetToMsg(rs[0].target)) == Some(NormalRequirement(rs[0]).target);
    }
  }

  lemma RequirementsRoundTrip(rs: RequirementSet)
    requires rs.Valid() && EffectiveCount(rs) < UINT64_LIMIT
    ensures RequirementsFromMsg(RequirementsToMsg(rs)) == Some(NormalRequirements(rs))
    ensures NormalRequirements(rs).Valid()
  {
    InlineRoundTrip(rs.inline);
  }

  lemma ContractRoundTrip(c: Contract)
    requires c.Valid()
    requires c.subject.bindingRef.Some? ==> c.subject.bindingRef.value.sealGeneration < UINT64_LIMIT
    ensures ContractFromMsg(ContractToMsg(c)) == Some(c)
  {
    assert SubjectFromMsg(SubjectToMsg(c.subject)) == Some(c.subject);
  }

  lemma FactsRoundTrip(f: AdmissionFacts)
    requires f.Valid()
    ensures FactsFromMsg(FactsToMsg(f)) == Some(f)
  {
    StripProps("");
  }

  lemma NormalizeKeepsValidity(s: Spec, decode: Decoder)
    requires s.Valid(decode) && Encodable(s)
    ensures Normalize(s).Valid(decode) && Encodable(Normalize(s))
  {
    if s.requirements.Some? { RequirementsRoundTrip(s.requirements.value); }
  }

  lemma AssembleGivesNormalForm(s: Spec, decode: Decoder)
    requires s.Valid(decode) && Encodable(s)
    ensures Assemble(ToProto(s).value, s.contract, s.manifest, Normalize(s).requirements, s.readiness, s.facts) == Normalize(s)
  {
  }

  lemma FromProtoAssembles(m: SpecMsg, decode: Decoder, c: Contract, manifest: Manifest,
                           requirements: Option<RequirementSet>, readiness: Option<LivenessMode>,
                           facts: Option<AdmissionFacts>)
    requires ContractFromMsg(m.contract) == Some(c) && decode(m.manifestBytes) == Some(manifest)
    requires requirements.Some? <==> m.requirements.Some?
    requires m.requirements.Some? ==> RequirementsFromMsg(m.requirements.value) == requirements
    requires readiness.Some? <==> m.readiness.Some?
    requires m.readiness.Some? ==> LivenessFromMsg(m.readiness.value) == readiness
    requires facts.Some? <==> m.facts.Some?
    requires m.facts.Some? ==> FactsFromMsg(m.facts.value) == facts
    ensures var s := Assemble(m, c, manifest, requirements, readiness, facts);
            FromProto(m, decode) == if s.Valid(decode) then Some(s) else None
  {
  }

  /** A valid spec that fits the wire comes back valid, as its normal form. */
  lemma WireRoundTrip(s: Spec, decode: Decoder)
    requires s.Valid(decode) && Encodable(s)
    ensures FromProto(ToProto(s).value, decode) == Some(Normalize(s))
    ensures Normalize(s).Valid(decode) && Encodable(Normalize(s))
  {
    var m := ToProto(s).value;
    NormalizeKeepsValidity(s, decode);
    AssembleGivesNormalForm(s, decode);
    assert ContractFromMsg(m.contract) == Some(s.contract) by { ContractRoundTrip(s.contract); }
    if s.requirements.Some? {
      assert RequirementsFromMsg(m.requirements.value) == Normalize(s).requirements by {
        RequirementsRoundTrip(s.requirements.value);
      }
    }
    if s.facts.Some? {
      assert FactsFromMsg(m.facts.value) == s.facts by { FactsRoundTrip(s.facts.value); }
    }
    FromProtoAssembles(m, decode, s.contract, s.manifest, Normalize(s).requirements, s.readiness, s.facts);
  }

  lemma NormalInlineIdempotent(rs: seq<Requirement>)
    ensures NormalInline(NormalInline(rs)) == NormalInline(rs)
  {
  }

  /** A second trip changes nothing. */
  lemma SecondTripChangesNothing(s: Spec, decode: Decoder)
    requires s.Valid(decode) && Encodable(s)
    ensures Normalize(s).Valid(decode) && Encodable(Normalize(s))
    ensures FromProto(ToProto(Normalize(s)).value, decode) == Some(Normalize(s))
  {
    WireRoundTrip(s, decode);
    WireRoundTrip(Normalize(s), decode);
    if s.requirements.Some? { NormalInlineIdempotent(s.requirements.value.inline); }
    assert Normalize(Normalize(s)) == Normalize(s);
  }

  predicate FilledRequirements(rs: RequirementSet) {
    && rs.count == EffectiveCount(rs)
    && rs.carrier != ""
    && forall i | 0 <= i < |rs.inline| :: rs.inline[i].target.viewId != Some("")
  }

  /** Exactly the specs that a trip over the wire leaves as they are. */
  lemma SurvivesUnchangedIff(s: Spec, decode: Decoder)
    requires s.Valid(decode) && Encodable(s)
    ensures FromProto(ToProto(s).value, decode) == Some(s) <==>
              && s.artifactId == s.contract.subject.artifactId
              && s.canonicalIndex == None
              && s.closeout.digest == "" && s.closeout.manifestRef.Some?
              && s.closeout.sourceVersionKey != Some("") && s.closeout.servingVersionKey != Some("")
              && s.sourceArtifactRef != Some("") && s.layoutId != Some("")
              && (s.requirements.Some? ==> FilledRequirements(s.requirements.value))
  {
    WireRoundTrip(s, decode);
    if s.requirements.Some? {
      var rs := s.requirements.value;
      NormalInlineFixed(rs.inline);
    }
  }

  lemma NormalInlineFixed(rs: seq<Requirement>)
    ensures NormalInline(rs) == rs <==> forall i | 0 <= i < |rs| :: rs[i].target.viewId != Some("")
  {
    if NormalInline(rs) == rs {
      forall i | 0 <= i < |rs| ensures rs[i].target.viewId != Some("") {
        assert NormalInline(rs)[i] == NormalRequirement(rs[i]);
      }
    }
  }

  /** The requirement count of a message is set, or there is nothing to count. */
  predicate CountIsSet(m: SpecMsg) {
    m.requirements.Some? ==> m.requirements.value.count > 0 || m.requirements.value.inline == []
  }

  lemma {:induction false} InlineFromMsgIsNormal(ms: seq<RequirementMsg>)
    requires InlineFromMsg(ms).Some?
    ensures var rs := InlineFromMsg(ms).value;
            |rs| == |ms| && forall i | 0 <= i < |rs| :: rs[i].target.viewId != Some("")
  {
    if ms != [] { InlineFromMsgIsNormal(ms[1..]); }
  }

  /** A requirement set read from the wire is normal but for an unset count. */
  lemma ReadRequirementsAreNormal(m: RequirementSetMsg)
    requires RequirementsFromMsg(m).Some?
    ensures var rs := RequirementsFromMsg(m).value;
            && NormalRequirements(rs) == rs.(count := EffectiveCount(rs))
            && (rs.count == EffectiveCount(rs) <==> m.count > 0 || m.inline == [])
            && (m.count > 0 || m.inline == [] ==> EffectiveCount(rs) < UINT64_LIMIT)
  {
    InlineFromMsgIsNormal(m.inline);
    NormalInlineFixed(RequirementsFromMsg(m).value.inline);
  }

  /** Whatever message arrives and is accepted: what it is read as is valid, and normal in
      every field but an unset requirement count. If that count is set, it is sent on and
      read back unchanged. */
  lemma AcceptedMessagesSettle(m: SpecMsg, decode: Decoder)
    requires FromProto(m, decode).Some?
    ensures var s := FromProto(m, decode).value;
            && s.Valid(decode)
            && (Normalize(s) == s <==> CountIsSet(m))
            && (CountIsSet(m) ==> Encodable(s) && FromProto(ToProto(s).value, decode) == Some(s))
            && (Encodable(s) ==> (FromProto(ToProto(s).value, decode) == Some(s) <==> CountIsSet(m)))
  {
    var s := FromProto(m, decode).value;
    if m.requirements.Some? { ReadRequirementsAreNormal(m.requirements.value); }
    if Encodable(s) { WireRoundTrip(s, decode); }
  }

  // ----- exactly which messages are accepted

  /** A reference names a tensor exactly when, trimmed, it is the prefix and a name. */
  lemma ManifestRefIff(ref: string)
    ensures ParseManifestRef(ref).Some? <==>
              "tensor:" <= Strip(ref) && !Blank(Strip(ref)[7..])
    ensures ParseManifestRef(ref).Some? ==> Trimmed(ParseManifestRef(ref).value) && ParseManifestRef(ref).value != ""
  {
    if "tensor:" <= Strip(ref) { StripProps(Strip(ref)[7..]); }
  }

  lemma ManifestRefRoundTrip(name: string)
    requires Trimmed(name) && name != ""
    ensures ParseManifestRef("tensor:" + name) == Some(name)
  {
    var ref := "tensor:" + name;
    assert ref[0] == 't' && ref[|ref| - 1] == name[|name| - 1];
    StripProps(ref);
    StripProps(name);
    assert ref[7..] == name;
  }

  predicate SubjectAccepted(m: SubjectMsg) {
    match m
    case NoRef => false
    case ArtifactRef(id) => id != ""
    case BindingRef(b) => b.bindingId != "" && b.layoutId != "" && b.valueId != ""
  }

  predicate ContractAccepted(m: ContractMsg, manifest: Manifest) {
    && m.subject.Some? && SubjectAccepted(m.subject.value)
    && ParseManifestRef(m.manifestRef).Some? && m.contractHash != "" && m.buildDigest != ""
    && manifest.manifestRef == m.manifestRef && manifest.contractHash == m.contractHash
    && manifest.buildDigest == m.buildDigest
    && (m.buildDigestVersion != "" ==> manifest.buildDigestVersion == m.buildDigestVersion)
  }

  /** A structural view (1) names its view, the canonical layout (2) names none. */
  predicate TargetAccepted(m: TargetMsg) {
    (m.kind == 1 && m.viewId != "") || (m.kind == 2 && m.viewId == "")
  }

  /** The facts admit publication by the builder: a pure transform (finalize class 1, or
      2 and 3 never) or a validated finalize (2); support level 3 or 4, and 4 to serve. */
  predicate FactsAccepted(m: FactsMsg, mode: BuilderMode, serves: bool) {
    && (if mode.PureTransform? then m.finalizeClass == 1 else m.finalizeClass == 2 && m.fastPathValidated)
    && (m.supportLevel == 4 || (m.supportLevel == 3 && !serves))
  }

  predicate MessageAccepted(m: SpecMsg, manifest: Manifest) {
    && ContractAccepted(m.contract, manifest)
    && (m.requirements.Some? ==>
          forall i | 0 <= i < |m.requirements.value.inline| :: TargetAccepted(m.requirements.value.inline[i].target))
    && (m.readiness.Some? ==> 0 <= m.readiness.value <= 2)
    && (m.facts.Some? ==> FactsAccepted(m.facts.value, manifest.builderMode, m.servingVersionKey != ""))
    && m.contractFamily in {"", "pp", "ep", "canonical_full"}
    && (manifest.builderMode.BindingFinalize? ==> m.contract.subject.value.BindingRef? && m.facts.Some?)
  }

  lemma {:induction false} InlineAcceptedIff(ms: seq<RequirementMsg>)
    ensures InlineFromMsg(ms).Some? <==> forall i | 0 <= i < |ms| :: TargetAccepted(ms[i].target)
  {
    if ms != [] {
      InlineAcceptedIff(ms[1..]);
      assert forall i | 1 <= i < |ms| :: ms[i] == ms[1..][i - 1];
      assert TargetFromMsg(ms[0].target).Some? <==> TargetAccepted(ms[0].target);
    }
  }

  lemma ContractAcceptedIff(m: ContractMsg, manifest: Manifest)
    ensures ContractAccepted(m, manifest) <==>
              ContractFromMsg(m).Some? && ContractFromMsg(m).value.MatchesManifest(manifest)
    ensures ContractFromMsg(m).Some? ==>
              && m.subject.Some?
              && ContractFromMsg(m).value.manifestRef == m.manifestRef
              && (ContractFromMsg(m).value.subject.bindingRef.Some? <==> m.subject.value.BindingRef?)
  {
  }

  lemma FactsAcceptedIff(m: FactsMsg, mode: BuilderMode, serves: bool)
    ensures FactsAccepted(m, mode, serves) <==>
              && FactsFromMsg(m).Some? && FactsFromMsg(m).value.AdmitsPublish(mode)
              && (serves ==> FactsFromMsg(m).value.supportLevel.RuntimeBindSwapReady?)
  {
  }

  lemma AssembledValidIff(m: SpecMsg, decode: Decoder, c: Contract, manifest: Manifest,
                          requirements: Option<RequirementSet>, readiness: Option<LivenessMode>,
                          facts: Option<AdmissionFacts>)
    requires c.Valid() && decode(m.manifestBytes) == Some(manifest)
    requires (facts.Some? ==> facts.value.Valid()) && (requirements.Some? ==> requirements.value.Valid())
    ensures Assemble(m, c, manifest, requirements, readiness, facts).Valid(decode) <==>
              && c.MatchesManifest(manifest)
              && m.contractFamily in {"", "pp", "ep", "canonical_full"}
              && (manifest.builderMode.BindingFinalize? ==> c.subject.bindingRef.Some? && facts.Some?)
              && (facts.Some? ==> facts.value.AdmitsPublish(manifest.builderMode)
                                  && (m.servingVersionKey != "" ==> facts.value.supportLevel.RuntimeBindSwapReady?))
  {
  }

  /** The parts of a message that can be read at all. */
  predicate PartsRead(m: SpecMsg) {
    && ContractFromMsg(m.contract).Some?
    && (m.requirements.Some? ==> RequirementsFromMsg(m.requirements.value).Some?)
    && (m.readiness.Some? ==> LivenessFromMsg(m.readiness.value).Some?)
    && (m.facts.Some? ==> FactsFromMsg(m.facts.value).Some?)
  }

  lemma ReadAcceptedIff(m: SpecMsg, decode: Decoder, manifest: Manifest)
    requires decode(m.manifestBytes) == Some(manifest) && PartsRead(m)
    ensures var c := ContractFromMsg(m.contract).value;
            FromProto(m, decode).Some? <==>
              && c.MatchesManifest(manifest)
              && m.contractFamily in {"", "pp", "ep", "canonical_full"}
              && (manifest.builderMode.BindingFinalize? ==> c.subject.bindingRef.Some? && m.facts.Some?)
              && (m.facts.Some? ==>
                    var f := FactsFromMsg(m.facts.value).value;
                    f.AdmitsPublish(manifest.builderMode) && (m.servingVersionKey != "" ==> f.supportLevel.RuntimeBindSwapReady?))
  {
    var c := ContractFromMsg(m.contract).value;
    var requirements := if m.requirements.Some? then RequirementsFromMsg(m.requirements.value) else None;
    var readiness := if m.readiness.Some? then LivenessFromMsg(m.readiness.value) else None;
    var facts := if m.facts.Some? then FactsFromMsg(m.facts.value) else None;
    AssembledValidIff(m, decode, c, manifest, requirements, readiness, facts);
    FromProtoAssembles(m, decode, c, manifest, requirements, readiness, facts);
  }

  /** A message is accepted exactly when its manifest decodes and its own fields pass. */
  lemma MessageAcceptedIff(m: SpecMsg, decode: Decoder)
    ensures FromProto(m, decode).Some? <==>
              decode(m.manifestBytes).Some? && MessageAccepted(m, decode(m.manifestBytes).value)
  {
    if decode(m.manifestBytes).Some? {
      var manifest := decode(m.manifestBytes).value;
      ContractAcceptedIff(m.contract, manifest);
      if m.requirements.Some? { InlineAcceptedIff(m.requirements.value.inline); }
      if m.facts.Some? { FactsAcceptedIff(m.facts.value, manifest.builderMode, m.servingVersionKey != ""); }
      if PartsRead(m) { ReadAcceptedIff(m, decode, manifest); }
    }
  }
}
