/** Planning how a runtime binding reuses its source, and the separate validators
    of the layout and the target that carry the plan (tensorcast/types.py). */
module ReusePlan {
  import opened Common

  datatype Topology = Topology(
    schemaVersion: int, schemaDigest: string, admissionDigest: Option<string>,
    logicalRef: Option<string>, diagnosticsRef: Option<string>)
  {
    predicate Valid() { schemaVersion > 0 && schemaDigest != "" }
  }

  datatype Member = Member(memberId: string, index: int, count: int, groupId: Option<string>) {
    predicate Valid() { memberId != "" && 0 <= index < count && groupId != Some("") }
  }

  datatype SourceMember = SourceMember(
    member: Member, artifactRef: string, manifestRef: Option<string>,
    tensorSchemaHash: Option<string>, targetLayoutHash: Option<string>)
  {
    predicate Valid() {
      && member.Valid() && artifactRef != ""
      && manifestRef != Some("") && tensorSchemaHash != Some("") && targetLayoutHash != Some("")
    }
  }

  datatype SourceKind = CheckpointArtifact | RuntimeArtifact | RuntimeArtifactSet

  datatype Source = Source(
    kind: SourceKind,
    selectionDigest: string,
    artifactRef: Option<string>,
    schemaHash: string,
    contractHash: Option<string>,
    buildDigest: Option<string>,
    tensorSchemaHash: Option<string>,
    topology: Option<Topology>,
    members: seq<SourceMember>)
  {
    predicate Valid() {
      && selectionDigest != "" && schemaHash != ""
      && (topology.Some? ==> topology.value.Valid())
      && (forall m | m in members :: m.Valid())
      && (kind.CheckpointArtifact? ==> Truthy(artifactRef) && members == [])
      && (kind.RuntimeArtifactSet? ==> topology.Some? && members != [])
    }
  }

  datatype Mode = CheckpointToRuntime | DirectMemberCopy | TransformRequired | Unsupported

  /** The planner's six reasons, and the free text that other callers may give. */
  datatype Reason =
    | ContractMismatch | TopologyMismatch | SchemaMismatch | MemberMissing | MemberSchemaMismatch | MemberLayoutMismatch
    | Note(text: string)

  datatype Decision = Decision(mode: Mode, contractHash: Option<string>, workPlanHash: Option<string>, reason: Option<Reason>) {
    predicate Valid() {
      && contractHash != Some("") && workPlanHash != Some("") && reason != Some(Note(""))
      && (mode.TransformRequired? ==> Truthy(workPlanHash) || reason.Some?)
      && (mode.Unsupported? ==> reason.Some?)
    }
  }

  /** Constructing a decision runs its validator; None is the ValueError. */
  function Make(mode: Mode, contractHash: Option<string>, reason: Option<Reason>): Option<Decision> {
    var d := Decision(mode, contractHash, None, reason);
    if d.Valid() then Some(d) else None
  }

  /** A decision is refused exactly for an empty hash or text, and for a transform or an
      unsupported source without a reason. */
  lemma MadeIff(mode: Mode, contractHash: Option<string>, reason: Option<Reason>)
    ensures Make(mode, contractHash, reason).Some? <==>
              && contractHash != Some("") && reason != Some(Note(""))
              && (mode == TransformRequired || mode == Unsupported ==> reason.Some?)
  {
  }

  function Transform(reason: Reason): Option<Decision> {
    Make(TransformRequired, None, Some(reason))
  }

  function Matching(members: seq<SourceMember>, member: Member): seq<SourceMember> {
    if members == [] then []
    else (if members[0].member == member then [members[0]] else []) + Matching(members[1..], member)
  }

  /** The reason of the first matching member that disagrees with the target. */
  function FirstDisagreement(ms: seq<SourceMember>, schema: string, layout: string): Option<Reason> {
    if ms == [] then None
    else if ms[0].tensorSchemaHash.Some? && ms[0].tensorSchemaHash.value != schema then Some(MemberSchemaMismatch)
    else if ms[0].targetLayoutHash.Some? && ms[0].targetLayoutHash.value != layout then Some(MemberLayoutMismatch)
    else FirstDisagreement(ms[1..], schema, layout)
  }

  /** Python's `representation_contract_hash or source.representation_contract_hash`. */
  function DirectHash(source: Source, contractHash: Option<string>): Option<string> {
    if Truthy(contractHash) then contractHash else source.contractHash
  }

  function Plan(source: Source, topology: Topology, member: Member, schema: string, layout: string,
                contractHash: Option<string>): Option<Decision>
  {
    if source.kind.CheckpointArtifact? then Make(CheckpointToRuntime, contractHash, None)
    else if contractHash.Some? && source.contractHash.Some? && contractHash != source.contractHash then
      Transform(ContractMismatch)
    else if source.topology.Some? && source.topology.value != topology then Transform(TopologyMismatch)
    else if source.tensorSchemaHash.Some? && source.tensorSchemaHash.value != schema then Transform(SchemaMismatch)
    else
      var ms := Matching(source.members, member);
      if source.kind.RuntimeArtifactSet? && ms == [] then Transform(MemberMissing)
      else
        var why := FirstDisagreement(ms, schema, layout);
        if why.Some? then Transform(why.value)
        else Make(DirectMemberCopy, DirectHash(source, contractHash), None)
  }

  datatype Layout = Layout(
    layoutId: string,
    source: Source,
    reuse: Decision,
    topology: Topology,
    member: Member,
    targetLayout: string,
    targetIndex: string,
    targetLayoutHash: string,
    tensorSchemaHash: string,
    specDigest: string)
  {
    predicate NonEmpty() {
      layoutId != "" && targetLayout != "" && targetIndex != "" && targetLayoutHash != "" && tensorSchemaHash != ""
      && specDigest != ""
    }

    /** The validator's own reading of a direct member copy: it looks at every
        source member that names the target member. */
    predicate DirectCopyAllowed() {
      && !source.kind.CheckpointArtifact?
      && (source.contractHash.Some? && reuse.contractHash.Some? ==> reuse.contractHash == source.contractHash)
      && (source.tensorSchemaHash.Some? ==> source.tensorSchemaHash.value == tensorSchemaHash)
      && (source.kind.RuntimeArtifactSet? ==> exists m :: m in source.members && m.member == member)
      && forall m | m in source.members && m.member == member ::
           && (m.targetLayoutHash.Some? ==> m.targetLayoutHash.value == targetLayoutHash)
           && (m.tensorSchemaHash.Some? ==> m.tensorSchemaHash.value == tensorSchemaHash)
    }

    predicate Valid() {
      && NonEmpty()
      && source.Valid() && reuse.Valid() && topology.Valid() && member.Valid()
      && (reuse.mode.DirectMemberCopy? ==> DirectCopyAllowed())
    }
  }

  datatype Target = Target(
    runtime: string,
    device: string,
    deviceUuid: Option<string>,
    source: Source,
    topology: Topology,
    member: Member,
    modelConfigDigest: string,
    loadConfigDigest: Option<string>,
    buildDigest: string,
    layout: Layout)
  {
    predicate Valid() {
      && source.Valid() && topology.Valid() && member.Valid() && layout.Valid()
      && runtime != "" && device != "" && deviceUuid != Some("")
      && modelConfigDigest != "" && loadConfigDigest != Some("") && buildDigest != ""
      && source == layout.source
      && (source.topology.Some? ==> source.topology.value == topology)
      && (layout.reuse.mode.DirectMemberCopy? && source.buildDigest.Some? ==> source.buildDigest.value == buildDigest)
      && topology == layout.topology && member == layout.member
    }
  }

  // ----- planner and validator agree

  /** The plan for the fields of a layout. */
  function PlanFor(l: Layout, contractHash: Option<string>): Option<Decision> {
    Plan(l.source, l.topology, l.member, l.tensorSchemaHash, l.targetLayoutHash, contractHash)
  }

  lemma {:induction false} MatchingSelects(members: seq<SourceMember>, member: Member)
    ensures forall m :: m in Matching(members, member) <==> m in members && m.member == member
  {
    if members != [] {
      MatchingSelects(members[1..], member);
      assert members == [members[0]] + members[1..];
    }
  }

  predicate Agrees(m: SourceMember, schema: string, layout: string) {
    && (m.tensorSchemaHash.Some? ==> m.tensorSchemaHash.value == schema)
    && (m.targetLayoutHash.Some? ==> m.targetLayoutHash.value == layout)
  }

  lemma {:induction false} NoDisagreementIff(ms: seq<SourceMember>, schema: string, layout: string)
    ensures FirstDisagreement(ms, schema, layout).None? <==> forall m | m in ms :: Agrees(m, schema, layout)
    ensures FirstDisagreement(ms, schema, layout).Some? ==>
              FirstDisagreement(ms, schema, layout).value in {MemberSchemaMismatch, MemberLayoutMismatch}
  {
    if ms != [] {
      NoDisagreementIff(ms[1..], schema, layout);
      if Agrees(ms[0], schema, layout) {
        assert forall m | m in ms :: m == ms[0] || m in ms[1..];
        assert forall m | m in ms[1..] :: m in ms;
      } else {
        assert ms[0] in ms;
      }
    }
  }

  predicate TopologyAgrees(source: Source, topology: Topology) {
    source.topology.Some? ==> source.topology.value == topology
  }

  predicate ContractAgrees(source: Source, contractHash: Option<string>) {
    contractHash.Some? && source.contractHash.Some? ==> contractHash == source.contractHash
  }

  /** The planner raises exactly where it would record an empty contract hash. */
  lemma PlanRaisesIff(l: Layout, contractHash: Option<string>)
    ensures var plan := PlanFor(l, contractHash);
            var direct := l.(reuse := Decision(DirectMemberCopy, DirectHash(l.source, contractHash), None, None));
            plan.None? <==>
              || (l.source.kind.CheckpointArtifact? && contractHash == Some(""))
              || (&& TopologyAgrees(l.source, l.topology) && ContractAgrees(l.source, contractHash)
                  && direct.DirectCopyAllowed() && DirectHash(l.source, contractHash) == Some(""))
  {
    PlanIsDirectIff(l, contractHash);
  }

  /** The planner's own tests, with the members summed up in `allowed`. */
  lemma PlanWhen(l: Layout, contractHash: Option<string>, allowed: bool)
    requires var ms := Matching(l.source.members, l.member);
             var direct := DirectHash(l.source, contractHash);
             allowed <==>
               && !l.source.kind.CheckpointArtifact?
               && (l.source.contractHash.Some? && direct.Some? ==> direct == l.source.contractHash)
               && (l.source.tensorSchemaHash.Some? ==> l.source.tensorSchemaHash.value == l.tensorSchemaHash)
               && (l.source.kind.RuntimeArtifactSet? ==> ms != [])
               && FirstDisagreement(ms, l.tensorSchemaHash, l.targetLayoutHash).None?
    ensures var plan := PlanFor(l, contractHash);
            var direct := Decision(DirectMemberCopy, DirectHash(l.source, contractHash), None, None);
            var reaches := TopologyAgrees(l.source, l.topology) && ContractAgrees(l.source, contractHash) && allowed;
            && (reaches ==> plan == if direct.Valid() then Some(direct) else None)
            && (!reaches && !l.source.kind.CheckpointArtifact? ==>
                  plan.Some? && plan.value.mode.TransformRequired? && plan.value.Valid())
  {
    var s, plan := l.source, PlanFor(l, contractHash);
    var why := FirstDisagreement(Matching(s.members, l.member), l.tensorSchemaHash, l.targetLayoutHash);
    if s.kind.CheckpointArtifact? {
    } else if !ContractAgrees(s, contractHash) {
      TransformIsMade(ContractMismatch);
    } else if !TopologyAgrees(s, l.topology) {
      TransformIsMade(TopologyMismatch);
    } else if s.tensorSchemaHash.Some? && s.tensorSchemaHash.value != l.tensorSchemaHash {
      TransformIsMade(SchemaMismatch);
    } else if s.kind.RuntimeArtifactSet? && Matching(s.members, l.member) == [] {
      TransformIsMade(MemberMissing);
    } else if why.Some? {
      NoDisagreementIff(Matching(s.members, l.member), l.tensorSchemaHash, l.targetLayoutHash);
      TransformIsMade(why.value);
    }
  }

  lemma TransformIsMade(why: Reason)
    requires why != Note("")
    ensures Transform(why) == Some(Decision(TransformRequired, None, None, Some(why))) && Transform(why).value.Valid()
  {
  }

  lemma PlanIsDirectIff(l: Layout, contractHash: Option<string>)
    ensures var plan := PlanFor(l, contractHash);
            var direct := Decision(DirectMemberCopy, DirectHash(l.source, contractHash), None, None);
            var reaches := TopologyAgrees(l.source, l.topology) && ContractAgrees(l.source, contractHash)
                           && l.(reuse := direct).DirectCopyAllowed();
            && (reaches ==> plan == if direct.Valid() then Some(direct) else None)
            && (!reaches && !l.source.kind.CheckpointArtifact? ==>
                  plan.Some? && plan.value.mode.TransformRequired? && plan.value.Valid())
  {
    var direct := Decision(DirectMemberCopy, DirectHash(l.source, contractHash), None, None);
    MembersAgreeIff(l, direct);
    PlanWhen(l, contractHash, l.(reuse := direct).DirectCopyAllowed());
  }

  /** The planner's walk over the matching members against the validator's quantified reading. */
  lemma MembersAgreeIff(l: Layout, direct: Decision)
    ensures var ms := Matching(l.source.members, l.member);
            l.(reuse := direct).DirectCopyAllowed() <==>
              && !l.source.kind.CheckpointArtifact?
              && (l.source.contractHash.Some? && direct.contractHash.Some? ==> direct.contractHash == l.source.contractHash)
              && (l.source.tensorSchemaHash.Some? ==> l.source.tensorSchemaHash.value == l.tensorSchemaHash)
              && (l.source.kind.RuntimeArtifactSet? ==> ms != [])
              && FirstDisagreement(ms, l.tensorSchemaHash, l.targetLayoutHash).None?
  {
    MatchingSelects(l.source.members, l.member);
    var ms := Matching(l.source.members, l.member);
    NoDisagreementIff(ms, l.tensorSchemaHash, l.targetLayoutHash);
    if ms != [] { assert ms[0] in ms; }
  }

  /** What a reason of the planner claims about its inputs. */
  ghost predicate ReasonHolds(why: Reason, l: Layout, contractHash: Option<string>) {
    var s := l.source;
    match why
    case ContractMismatch => !ContractAgrees(s, contractHash)
    case TopologyMismatch => !TopologyAgrees(s, l.topology)
    case SchemaMismatch => s.tensorSchemaHash.Some? && s.tensorSchemaHash.value != l.tensorSchemaHash
    case MemberMissing => s.kind.RuntimeArtifactSet? && forall m | m in s.members :: m.member != l.member
    case MemberSchemaMismatch =>
      exists m :: m in s.members && m.member == l.member && m.tensorSchemaHash.Some?
                  && m.tensorSchemaHash.value != l.tensorSchemaHash
    case MemberLayoutMismatch =>
      exists m :: m in s.members && m.member == l.member && m.targetLayoutHash.Some?
                  && m.targetLayoutHash.value != l.targetLayoutHash
    case Note(_) => false
  }

  lemma {:induction false} DisagreementIsReal(ms: seq<SourceMember>, schema: string, layout: string)
    requires FirstDisagreement(ms, schema, layout).Some?
    ensures match FirstDisagreement(ms, schema, layout).value
            case MemberSchemaMismatch =>
              exists m :: m in ms && m.tensorSchemaHash.Some? && m.tensorSchemaHash.value != schema
            case MemberLayoutMismatch =>
              exists m :: m in ms && m.targetLayoutHash.Some? && m.targetLayoutHash.value != layout
            case _ => false
  {
    if Agrees(ms[0], schema, layout) {
      DisagreementIsReal(ms[1..], schema, layout);
    } else {
      assert ms[0] in ms;
    }
  }

  /** Every transform that the planner demands comes with a reason that is true. */
  lemma TransformReasonIsTrue(l: Layout, contractHash: Option<string>)
    requires var plan := PlanFor(l, contractHash);
             plan.Some? && plan.value.mode.TransformRequired?
    ensures var plan := PlanFor(l, contractHash);
            plan.value.reason.Some? && ReasonHolds(plan.value.reason.value, l, contractHash)
  {
    MatchingSelects(l.source.members, l.member);
    var ms := Matching(l.source.members, l.member);
    if FirstDisagreement(ms, l.tensorSchemaHash, l.targetLayoutHash).Some? {
      DisagreementIsReal(ms, l.tensorSchemaHash, l.targetLayoutHash);
    }
  }

  /** The mode of every plan: a checkpoint is always converted, with the hash asked for,
      and anything else is copied or transformed; nothing is declared unsupported. */
  lemma PlanMode(l: Layout, contractHash: Option<string>)
    ensures l.source.kind.CheckpointArtifact? && contractHash != Some("") ==>
              PlanFor(l, contractHash) == Some(Decision(CheckpointToRuntime, contractHash, None, None))
    ensures l.source.kind.CheckpointArtifact? && contractHash == Some("") ==> PlanFor(l, contractHash).None?
    ensures PlanFor(l, contractHash).Some? && !l.source.kind.CheckpointArtifact? ==>
              PlanFor(l, contractHash).value.mode in {DirectMemberCopy, TransformRequired}
  {
  }

  /** The order in which the planner gives its reasons; those about members come last. */
  function Rank(why: Reason): nat {
    match why
    case ContractMismatch => 0
    case TopologyMismatch => 1
    case SchemaMismatch => 2
    case MemberMissing => 3
    case _ => 4
  }

  lemma {:induction false} FirstToDisagree(members: seq<SourceMember>, member: Member, schema: string, layout: string)
    returns (i: nat)
    requires FirstDisagreement(Matching(members, member), schema, layout).Some?
    ensures i < |members| && members[i].member == member && !Agrees(members[i], schema, layout)
    ensures forall j | 0 <= j < i :: members[j].member == member ==> Agrees(members[j], schema, layout)
    ensures FirstDisagreement(Matching(members, member), schema, layout).value ==
            if members[i].tensorSchemaHash in {None, Some(schema)} then MemberLayoutMismatch else MemberSchemaMismatch
  {
    var ms := Matching(members, member);
    if members[0].member == member && !Agrees(members[0], schema, layout) {
      assert ms[0] == members[0];
      i := 0;
    } else {
      var rest := Matching(members[1..], member);
      if members[0].member == member {
        assert ms == [members[0]] + rest && ms[1..] == rest;
      } else {
        assert ms == rest;
      }
      var k := FirstToDisagree(members[1..], member, schema, layout);
      i := k + 1;
    }
  }

  /** The reason given is the first that holds: no reason of lower rank does, and among the
      members it is that of the first one that disagrees, its schema before its layout. */
  lemma TransformReasonIsFirst(l: Layout, contractHash: Option<string>)
    requires PlanFor(l, contractHash).Some? && PlanFor(l, contractHash).value.mode.TransformRequired?
    ensures var why := PlanFor(l, contractHash).value.reason.value;
            && (forall other | other in {ContractMismatch, TopologyMismatch, SchemaMismatch, MemberMissing} ::
                  Rank(other) < Rank(why) ==> !ReasonHolds(other, l, contractHash))
            && (Rank(why) == 4 ==>
                  exists i: nat :: DisagreesFirst(l, i)
                    && why == if l.source.members[i].tensorSchemaHash in {None, Some(l.tensorSchemaHash)}
                              then MemberLayoutMismatch else MemberSchemaMismatch)
  {
    MatchingSelects(l.source.members, l.member);
    var ms := Matching(l.source.members, l.member);
    if ms != [] { assert ms[0] in ms; }
    var why := PlanFor(l, contractHash).value.reason.value;
    if Rank(why) == 4 {
      var i := FirstToDisagree(l.source.members, l.member, l.tensorSchemaHash, l.targetLayoutHash);
      assert DisagreesFirst(l, i);
    }
  }

  ghost predicate DisagreesFirst(l: Layout, i: nat) {
    var ms := l.source.members;
    && i < |ms| && ms[i].member == l.member && !Agrees(ms[i], l.tensorSchemaHash, l.targetLayoutHash)
    && forall j | 0 <= j < i :: ms[j].member == l.member ==> Agrees(ms[j], l.tensorSchemaHash, l.targetLayoutHash)
  }

  /** With no empty contract hash, the planner chooses a direct member copy exactly
      when topology and contract agree where given and the layout validator accepts
      that direct copy. */
  lemma PlannerAgreesWithValidator(l: Layout, contractHash: Option<string>)
    requires l.NonEmpty() && l.source.Valid() && l.topology.Valid() && l.member.Valid()
    requires contractHash != Some("") && l.source.contractHash != Some("")
    ensures var plan := PlanFor(l, contractHash);
            var direct := Decision(DirectMemberCopy, DirectHash(l.source, contractHash), None, None);
            && plan.Some?
            && (plan.value.mode.DirectMemberCopy? <==>
                  && TopologyAgrees(l.source, l.topology) && ContractAgrees(l.source, contractHash)
                  && l.(reuse := direct).Valid())
            && l.(reuse := plan.value).Valid()
  {
    PlanIsDirectIff(l, contractHash);
  }

  /** A target whose own fields pass and match its layout, whatever the layout decided. */
  predicate Fits(t: Target) {
    && t.source.Valid() && t.topology.Valid() && t.member.Valid() && t.layout.NonEmpty()
    && t.runtime != "" && t.device != "" && t.deviceUuid != Some("")
    && t.modelConfigDigest != "" && t.loadConfigDigest != Some("") && t.buildDigest != ""
    && t.source == t.layout.source && t.topology == t.layout.topology && t.member == t.layout.member
  }

  function Carrying(t: Target, d: Decision): Target {
    t.(layout := t.layout.(reuse := d))
  }

  predicate BuildAgrees(t: Target) {
    t.source.buildDigest.Some? ==> t.source.buildDigest.value == t.buildDigest
  }

  /** The planner knows neither the build digest nor the target's demand for equal
      topologies. Whatever it plans, the target carrying the plan is accepted exactly
      when the topologies agree and a direct copy comes from the same build. */
  lemma TargetAcceptsPlanIff(t: Target, contractHash: Option<string>)
    requires Fits(t) && PlanFor(t.layout, contractHash).Some?
    ensures var plan := PlanFor(t.layout, contractHash).value;
            Carrying(t, plan).Valid() <==>
              TopologyAgrees(t.source, t.topology) && (plan.mode.DirectMemberCopy? ==> BuildAgrees(t))
  {
    PlanIsDirectIff(t.layout, contractHash);
  }

  /** The planner's decisions are accepted for every build exactly when the topologies
      agree and the planner does not choose to copy from a source with a build digest. */
  lemma AcceptedForEveryBuildIff(t: Target, contractHash: Option<string>)
    requires Fits(t) && PlanFor(t.layout, contractHash).Some?
    ensures var plan := PlanFor(t.layout, contractHash).value;
            (forall digest: string | digest != "" :: Carrying(t.(buildDigest := digest), plan).Valid()) <==>
              TopologyAgrees(t.source, t.topology) && (plan.mode.DirectMemberCopy? ==> t.source.buildDigest.None?)
  {
    var plan := PlanFor(t.layout, contractHash).value;
    forall digest: string | digest != ""
      ensures Carrying(t.(buildDigest := digest), plan).Valid() <==>
                TopologyAgrees(t.source, t.topology)
                && (plan.mode.DirectMemberCopy? ==> BuildAgrees(t.(buildDigest := digest)))
    {
      TargetAcceptsPlanIff(t.(buildDigest := digest), contractHash);
    }
    if t.source.buildDigest.Some? {
      var other := t.source.buildDigest.value + "x";
      assert other != t.source.buildDigest.value;
      assert Carrying(t.(buildDigest := other), plan).Valid() ==> !plan.mode.DirectMemberCopy?;
    } else {
      assert Carrying(t.(buildDigest := "x"), plan).Valid() ==> TopologyAgrees(t.source, t.topology);
    }
  }

  const OLD_BUILD := Source(RuntimeArtifact, "sel", Some("art"), "schema", None, Some("build-1"), None, None, [])

  function NewBuildTarget(): Target {
    var topology, member := Topology(1, "topo", None, None, None), Member("m", 0, 1, None);
    Target("vllm", "0", None, OLD_BUILD, topology, member, "model", None, "build-2",
           Layout("layout", OLD_BUILD, Decision(CheckpointToRuntime, None, None, None), topology, member,
                  "bytes", "index", "lh", "th", "spec"))
  }

  /** A plan that the target refuses: a direct copy from a source of another build. */
  lemma PlannedCopyIsRefused()
    ensures var t := NewBuildTarget();
            && Fits(t) && TopologyAgrees(t.source, t.topology)
            && PlanFor(t.layout, None) == Some(Decision(DirectMemberCopy, None, None, None))
            && !Carrying(t, PlanFor(t.layout, None).value).Valid()
  {
    assert "build-1" != "build-2" by { assert "build-1"[6] != "build-2"[6]; }
    assert Matching(OLD_BUILD.members, NewBuildTarget().member) == [];
  }

  /** Planning a validated direct-copy target again, from its own fields, gives a direct
      copy. It carries the recorded contract hash exactly if one was recorded or the
      source has none; and it raises exactly if none was recorded and the source's is empty. */
  lemma DirectCopyReplans(t: Target)
    requires t.Valid() && t.layout.reuse.mode.DirectMemberCopy?
    ensures var recorded, own := t.layout.reuse.contractHash, t.source.contractHash;
            var plan := PlanFor(t.layout, recorded);
            && (plan.None? <==> recorded.None? && own == Some(""))
            && (plan.Some? ==>
                  && plan.value == Decision(DirectMemberCopy, DirectHash(t.source, recorded), None, None)
                  && (plan.value.contractHash == recorded <==> recorded.Some? || own.None?))
  {
    var l := t.layout;
    PlanIsDirectIff(l, l.reuse.contractHash);
    var direct := Decision(DirectMemberCopy, DirectHash(l.source, l.reuse.contractHash), None, None);
    assert l.(reuse := direct).DirectCopyAllowed();
  }
}
