/** Retained realization claims: what a producer builds from a prefetch handoff
    and what a consumer accepts (tensorcast/retained_realization.py,
    tensorcast/retained_realization_authority.py). */
module RetainedClaim {
  import opened Common
  import opened Text
  import Publication
  import ReusePlan

  type BindingValueRef = Publication.BindingValueRef
  type Member = ReusePlan.Member

  datatype Capability = Capability(
    capabilityId: string, bindingRef: BindingValueRef, daemonId: string, sessionId: string, deviceUuid: string,
    member: Member, reservationBytes: int, scopeDigest: string, expiresAtMs: Option<int>)
  {
    predicate Valid() {
      && bindingRef.Valid() && member.Valid()
      && capabilityId != "" && daemonId != "" && sessionId != "" && deviceUuid != "" && scopeDigest != ""
      && reservationBytes >= 0
      && (expiresAtMs.Some? ==> expiresAtMs.value >= 0)
    }
  }

  datatype GroupAcquire = GroupAcquire(
    transactionId: string, versionSetId: string, partId: string, stagingToken: string, waitForPublish: bool, waitTimeoutMs: int)
  {
    predicate Valid() {
      transactionId != "" && versionSetId != "" && partId != "" && stagingToken != "" && waitTimeoutMs >= 0
    }
  }

  datatype Readiness = Reserved | LocalReady | PublishedReady

  datatype Verification = Pending | Verified | VerificationFailed | LocalOnly

  datatype Handoff = Handoff(
    localRef: Option<string>, bindingRef: BindingValueRef, daemonId: string, sessionId: string, deviceUuid: string,
    member: Member, reservationBytes: int, capability: Capability, readiness: Readiness, verification: Verification,
    artifactId: Option<string>, expiresAtMs: Option<int>, staged: bool, groupAcquire: Option<GroupAcquire>)
  {
    predicate Valid() {
      && bindingRef.Valid() && member.Valid() && capability.Valid()
      && (groupAcquire.Some? ==> groupAcquire.value.Valid())
      && localRef != Some("")
      && daemonId != "" && sessionId != "" && deviceUuid != ""
      && reservationBytes >= 0
      && capability.bindingRef == bindingRef
      && (expiresAtMs.Some? ==> expiresAtMs.value >= 0)
      && (staged ==> groupAcquire.Some?)
    }
  }

  datatype Digests = Digests(targetLayoutHash: string, tensorSchemaHash: string, buildDigest: string, specDigest: string)

  // ----- the serialized claim

  /** A capability object as written; the two references may be missing. */
  datatype CapabilityPayload = CapabilityPayload(
    capabilityId: string, bindingRef: Option<BindingValueRef>, daemonId: string, sessionId: string, deviceUuid: string,
    member: Option<Member>, reservationBytes: int, scopeDigest: string, expiresAtMs: Option<int>)

  datatype Payload = Payload(
    groupId: string, memberRef: Member, daemonId: string, sessionId: string, deviceUuid: string,
    bindingRef: BindingValueRef, capability: CapabilityPayload, localRef: Option<string>, readiness: Readiness,
    verification: Verification, artifactId: Option<string>, trustedBytes: int, expected: Digests,
    groupAcquire: Option<GroupAcquire>)

  datatype Settings = Settings(external: bool, authority: Option<Payload>, authorities: seq<Payload>)

  function DumpCapability(c: Capability): CapabilityPayload {
    CapabilityPayload(c.capabilityId, Some(c.bindingRef), c.daemonId, c.sessionId, c.deviceUuid, Some(c.member),
                      c.reservationBytes, c.scopeDigest, c.expiresAtMs)
  }

  function ExpectedDigests(t: ReusePlan.Target): Digests {
    Digests(t.layout.targetLayoutHash, t.layout.tensorSchemaHash, t.buildDigest, t.layout.specDigest)
  }

  /** `_retained_realization_authority_from_handoff`; None is its ValueError. */
  function FromHandoff(h: Handoff, target: ReusePlan.Target, expectedMember: Option<Member>): Option<Payload> {
    if expectedMember.Some? && h.member != expectedMember.value then None
    else Some(Payload(OrEmpty(h.member.groupId), h.member, h.daemonId, h.sessionId, h.deviceUuid, h.bindingRef,
                      DumpCapability(h.capability), h.localRef, h.readiness, h.verification, h.artifactId,
                      h.reservationBytes, ExpectedDigests(target), h.groupAcquire))
  }

  // ----- the consumer

  function StripOrNone(o: Option<string>): Option<string> {
    if o.Some? then OrNone(Strip(o.value)) else None
  }

  predicate NonBlank(s: string) { Strip(s) != "" }

  /** The authority model: required text must not be blank, and is trimmed. */
  predicate Admissible(p: Payload) {
    && NonBlank(p.groupId) && NonBlank(p.daemonId) && NonBlank(p.sessionId) && NonBlank(p.deviceUuid)
    && NonBlank(p.expected.targetLayoutHash) && NonBlank(p.expected.tensorSchemaHash)
    && NonBlank(p.expected.buildDigest) && NonBlank(p.expected.specDigest)
    && p.trustedBytes >= 0
    && (p.readiness.PublishedReady? ==> StripOrNone(p.artifactId).Some?)
  }

  function StripDigests(d: Digests): Digests {
    Digests(Strip(d.targetLayoutHash), Strip(d.tensorSchemaHash), Strip(d.buildDigest), Strip(d.specDigest))
  }

  function NormalPayload(p: Payload): Payload {
    p.(groupId := Strip(p.groupId), daemonId := Strip(p.daemonId), sessionId := Strip(p.sessionId),
       deviceUuid := Strip(p.deviceUuid), localRef := StripOrNone(p.localRef), artifactId := StripOrNone(p.artifactId),
       expected := StripDigests(p.expected))
  }

  function NormalAll(ps: seq<Payload>): (ns: seq<Payload>)
    ensures |ns| == |ps|
  {
    seq(|ps|, i requires 0 <= i < |ps| => NormalPayload(ps[i]))
  }

  /** Building the acquire settings from the mapping; None is a ValueError. */
  function BuildSettings(s: Settings): Option<Settings> {
    if (s.authority.Some? && !Admissible(s.authority.value)) || (exists p :: p in s.authorities && !Admissible(p)) then None
    else if s.external && s.authority.None? && s.authorities == [] then None
    else if s.external && s.authority.Some? && s.authorities != [] then None
    else if !s.external && (s.authority.Some? || s.authorities != []) then None
    else Some(Settings(s.external, if s.authority.Some? then Some(NormalPayload(s.authority.value)) else None,
                       NormalAll(s.authorities)))
  }

  function SelectByMember(ps: seq<Payload>, member: Member): Option<Payload> {
    if ps == [] then None
    else if !ps[0].memberRef.Valid() then None
    else if ps[0].memberRef == member then Some(ps[0])
    else SelectByMember(ps[1..], member)
  }

  function Select(s: Settings, expectedMember: Option<Member>): Option<Payload> {
    if s.authority.Some? then s.authority
    else if s.authorities == [] then None
    else if expectedMember.None? then (if |s.authorities| == 1 then Some(s.authorities[0]) else None)
    else SelectByMember(s.authorities, expectedMember.value)
  }

  datatype Authority = Authority(
    groupId: string, localRef: Option<string>, bindingRef: BindingValueRef, capability: Capability, daemonId: string,
    sessionId: string, deviceUuid: string, member: Member, reservationBytes: int, expected: Digests,
    readiness: Readiness, verification: Verification, artifactId: Option<string>, groupAcquire: Option<GroupAcquire>)
  {
    predicate Consistent() {
      && capability.bindingRef == bindingRef
      && capability.daemonId == daemonId
      && capability.sessionId == sessionId
      && capability.deviceUuid == deviceUuid
      && capability.member == member
      && capability.reservationBytes == reservationBytes
      && (member.groupId.Some? ==> member.groupId.value == groupId)
      && (readiness.PublishedReady? ==> Truthy(artifactId))
    }
  }

  /** Missing references in the capability default to those of the authority. */
  function LoadCapability(c: CapabilityPayload, bindingRef: BindingValueRef, member: Member): Capability {
    Capability(c.capabilityId, if c.bindingRef.Some? then c.bindingRef.value else bindingRef, c.daemonId, c.sessionId,
               c.deviceUuid, if c.member.Some? then c.member.value else member, c.reservationBytes, c.scopeDigest, c.expiresAtMs)
  }

  function Load(p: Payload): Authority {
    Authority(p.groupId, p.localRef, p.bindingRef, LoadCapability(p.capability, p.bindingRef, p.memberRef), p.daemonId,
              p.sessionId, p.deviceUuid, p.memberRef, p.trustedBytes, p.expected, p.readiness, p.verification,
              p.artifactId, p.groupAcquire)
  }

  /** `parse_retained_realization_authority`; None is any ValueError. */
  function Parse(raw: Settings, expectedMember: Option<Member>): Option<Authority> {
    var s := BuildSettings(raw);
    if s.None? || !s.value.external then None
    else
      var chosen := Select(s.value, expectedMember);
      if chosen.None? then None
      else
        var p, a := chosen.value, Load(chosen.value);
        if && p.bindingRef.Valid() && p.memberRef.Valid() && a.capability.Valid()
           && (p.groupAcquire.Some? ==> p.groupAcquire.value.Valid())
           && a.Consistent()
           && (expectedMember.Some? ==> a.member == expectedMember.value)
        then Some(a) else None
  }

  // ----- producer against consumer

  function ClaimExtra(p: Payload): Settings {
    Settings(true, Some(p), [])
  }

  /** What a handoff must satisfy for its claim to be accepted. */
  predicate Claimable(h: Handoff, target: ReusePlan.Target) {
    && h.member.groupId.Some? && Trimmed(h.member.groupId.value)
    && h.capability.daemonId == Strip(h.daemonId)
    && h.capability.sessionId == Strip(h.sessionId)
    && h.capability.deviceUuid == Strip(h.deviceUuid)
    && h.capability.member == h.member
    && h.capability.reservationBytes == h.reservationBytes
    && NonBlank(target.layout.targetLayoutHash) && NonBlank(target.layout.tensorSchemaHash)
    && NonBlank(target.buildDigest) && NonBlank(target.layout.specDigest)
    && (h.readiness.PublishedReady? ==> h.artifactId.Some? && NonBlank(h.artifactId.value))
  }

  /** The handoff as the consumer sees it: its fields and the target's digests, trimmed. */
  function Delivered(h: Handoff, target: ReusePlan.Target): Authority {
    var expected := Digests(Strip(target.layout.targetLayoutHash), Strip(target.layout.tensorSchemaHash),
                            Strip(target.buildDigest), Strip(target.layout.specDigest));
    Authority(OrEmpty(h.member.groupId), StripOrNone(h.localRef), h.bindingRef, h.capability, Strip(h.daemonId),
              Strip(h.sessionId), Strip(h.deviceUuid), h.member, h.reservationBytes, expected,
              h.readiness, h.verification, StripOrNone(h.artifactId), h.groupAcquire)
  }

  lemma PayloadFacts(h: Handoff, target: ReusePlan.Target)
    requires h.Valid()
    ensures var p := FromHandoff(h, target, None).value;
            && (Admissible(p) && Load(NormalPayload(p)).Consistent() <==> Claimable(h, target))
            && (Claimable(h, target) ==> Load(NormalPayload(p)) == Delivered(h, target))
  {
    if h.member.groupId.Some? { StripProps(h.member.groupId.value); }
    StripProps("");
    assert LoadCapability(DumpCapability(h.capability), h.bindingRef, h.member) == h.capability;
  }

  lemma SingleSettingsBuild(p: Payload)
    ensures BuildSettings(ClaimExtra(p)) ==
            if Admissible(p) then Some(Settings(true, Some(NormalPayload(p)), [])) else None
  {
    assert NormalAll([]) == [];
  }

  /** The settings of a claim are built and selected whole, and checked in one place. */
  lemma ParseSingle(p: Payload, consumerMember: Option<Member>)
    requires p.bindingRef.Valid() && p.memberRef.Valid()
    requires var a := Load(NormalPayload(p));
             a.capability.Valid() && (p.groupAcquire.Some? ==> p.groupAcquire.value.Valid())
    ensures Parse(ClaimExtra(p), consumerMember) ==
            var a := Load(NormalPayload(p));
            if Admissible(p) && a.Consistent() && (consumerMember.Some? ==> consumerMember.value == p.memberRef)
            then Some(a) else None
  {
    SingleSettingsBuild(p);
  }

  /** Producer and consumer end to end, each with the member it expects, if any. */
  function HandOver(h: Handoff, target: ReusePlan.Target, producerMember: Option<Member>,
                    consumerMember: Option<Member>): Option<Authority>
  {
    var p := FromHandoff(h, target, producerMember);
    if p.None? then None else Parse(ClaimExtra(p.value), consumerMember)
  }

  /** A valid handoff arrives exactly when it is claimable and both members expected on
      the way, if any, are its own; it then carries the handoff's fields up to trimming. */
  lemma ClaimParsesIff(h: Handoff, target: ReusePlan.Target, producerMember: Option<Member>, consumerMember: Option<Member>)
    requires h.Valid()
    ensures var parsed := HandOver(h, target, producerMember, consumerMember);
            && (parsed.Some? <==>
                  && Claimable(h, target)
                  && (producerMember.Some? ==> producerMember.value == h.member)
                  && (consumerMember.Some? ==> consumerMember.value == h.member))
            && (parsed.Some? ==> parsed.value == Delivered(h, target))
  {
    PayloadFacts(h, target);
    ParseSingle(FromHandoff(h, target, None).value, consumerMember);
  }

  // ----- which settings are accepted

  /** Settings are built exactly when every claim in them is admissible and an external
      acquire names its claims in one of the two ways, any other acquire in none. */
  lemma SettingsBuiltIff(s: Settings)
    ensures BuildSettings(s).Some? <==>
              && (s.authority.Some? ==> Admissible(s.authority.value))
              && (forall i | 0 <= i < |s.authorities| :: Admissible(s.authorities[i]))
              && (s.external ==> (s.authority.Some? <==> s.authorities == []))
              && (!s.external ==> s.authority.None? && s.authorities == [])
  {
    assert forall p :: p in s.authorities <==> exists i :: 0 <= i < |s.authorities| && s.authorities[i] == p;
  }

  /** Nothing is parsed from settings that are not external, nor from a list of several
      claims without a member to choose by, nor for a member that the list does not name. */
  lemma NothingToParse(s: Settings, member: Option<Member>)
    requires || !s.external
             || (s.authority.None? && member.None? && |s.authorities| != 1)
             || (s.authority.None? && member.Some? && forall p | p in s.authorities :: p.memberRef != member.value)
    ensures Parse(s, member).None?
  {
    if BuildSettings(s).Some? && s.authority.None? && member.Some? {
      NotSelected(NormalAll(s.authorities), member.value);
    }
  }

  lemma {:induction false} NotSelected(ps: seq<Payload>, member: Member)
    ensures SelectByMember(ps, member).Some? ==> exists p :: p in ps && p.memberRef == member
  {
    if ps != [] && ps[0].memberRef != member { NotSelected(ps[1..], member); }
    if ps != [] { assert ps[0] in ps; }
  }

  /** Whatever settings arrive, a claim that is parsed from them names its owner in full,
      its capability is for the same binding, place, member and size, and the member is
      the one expected. */
  lemma ParsedIsSound(raw: Settings, member: Option<Member>)
    requires Parse(raw, member).Some?
    ensures var a := Parse(raw, member).value;
            && raw.external && (member.Some? ==> a.member == member.value)
            && a.groupId != "" && a.daemonId != "" && a.sessionId != "" && a.deviceUuid != ""
            && a.expected.targetLayoutHash != "" && a.expected.tensorSchemaHash != ""
            && a.expected.buildDigest != "" && a.expected.specDigest != ""
            && a.bindingRef.bindingId != "" && a.bindingRef.layoutId != "" && a.bindingRef.valueId != ""
            && a.bindingRef.sealGeneration >= 0 && a.reservationBytes >= 0
            && a.member.memberId != "" && 0 <= a.member.index < a.member.count
            && (a.member.groupId.Some? ==> a.member.groupId.value == a.groupId)
            && a.capability.capabilityId != "" && a.capability.scopeDigest != ""
            && a.capability.bindingRef == a.bindingRef && a.capability.member == a.member
            && a.capability.daemonId == a.daemonId && a.capability.sessionId == a.sessionId
            && a.capability.deviceUuid == a.deviceUuid && a.capability.reservationBytes == a.reservationBytes
            && (a.readiness == PublishedReady ==> a.artifactId.Some? && a.artifactId.value != "")
            && (a.groupAcquire.Some? ==> a.groupAcquire.value.transactionId != "" && a.groupAcquire.value.partId != "")
  {
    SelectedIsAdmissible(raw, member);
  }

  /** The claim that is chosen is an admissible one of those given, trimmed. */
  lemma SelectedIsAdmissible(raw: Settings, member: Option<Member>)
    requires BuildSettings(raw).Some? && Select(BuildSettings(raw).value, member).Some?
    ensures exists p :: Admissible(p) && Select(BuildSettings(raw).value, member) == Some(NormalPayload(p))
  {
    var ns := NormalAll(raw.authorities);
    if raw.authority.Some? {
      assert Admissible(raw.authority.value);
    } else {
      var k := SelectedFrom(ns, member);
      assert raw.authorities[k] in raw.authorities && ns[k] == NormalPayload(raw.authorities[k]);
    }
  }

  lemma {:induction false} SelectedFrom(ps: seq<Payload>, member: Option<Member>) returns (k: nat)
    requires Select(Settings(true, None, ps), member).Some?
    ensures k < |ps| && Select(Settings(true, None, ps), member) == Some(ps[k])
  {
    k := 0;
    if member.Some? && ps[0].memberRef != member.value {
      var j := SelectedFrom(ps[1..], member);
      k := j + 1;
    }
  }

  // ----- claims for a whole group

  function PayloadsOf(hs: seq<Handoff>, targets: seq<ReusePlan.Target>): (ps: seq<Payload>)
    requires |hs| == |targets|
    ensures |ps| == |hs|
  {
    seq(|hs|, i requires 0 <= i < |hs| => FromHandoff(hs[i], targets[i], None).value)
  }

  lemma {:induction false} SelectFindsMember(ps: seq<Payload>, i: nat)
    requires i < |ps|
    requires forall j | 0 <= j < |ps| :: ps[j].memberRef.Valid()
    requires forall j | 0 <= j < i :: ps[j].memberRef != ps[i].memberRef
    ensures SelectByMember(ps, ps[i].memberRef) == Some(ps[i])
  {
    if i > 0 { SelectFindsMember(ps[1..], i - 1); }
  }

  lemma GroupSettingsBuild(ps: seq<Payload>)
    requires ps != [] && forall j | 0 <= j < |ps| :: Admissible(ps[j])
    ensures BuildSettings(Settings(true, None, ps)) == Some(Settings(true, None, NormalAll(ps)))
  {
    assert forall p | p in ps :: Admissible(p);
  }

  lemma GroupSelects(hs: seq<Handoff>, targets: seq<ReusePlan.Target>, i: nat)
    requires |hs| == |targets| && i < |hs|
    requires forall j | 0 <= j < |hs| :: hs[j].member.Valid()
    requires forall j, k | 0 <= j < k < |hs| :: hs[j].member != hs[k].member
    ensures SelectByMember(NormalAll(PayloadsOf(hs, targets)), hs[i].member)
            == Some(NormalPayload(FromHandoff(hs[i], targets[i], None).value))
  {
    var ns := NormalAll(PayloadsOf(hs, targets));
    assert forall j | 0 <= j < |ns| :: ns[j].memberRef == hs[j].member;
    SelectFindsMember(ns, i);
  }

  /** Claims of a group collected in one list: as long as all are claimable and
      their members differ, every worker that names its member gets its own claim. */
  lemma EachWorkerGetsItsClaim(hs: seq<Handoff>, targets: seq<ReusePlan.Target>, i: nat)
    requires |hs| == |targets| && i < |hs|
    requires forall j | 0 <= j < |hs| :: hs[j].Valid() && Claimable(hs[j], targets[j])
    requires forall j, k | 0 <= j < k < |hs| :: hs[j].member != hs[k].member
    ensures Parse(Settings(true, None, PayloadsOf(hs, targets)), Some(hs[i].member))
            == Some(Delivered(hs[i], targets[i]))
  {
    var ps := PayloadsOf(hs, targets);
    forall j | 0 <= j < |ps| ensures Admissible(ps[j]) { PayloadFacts(hs[j], targets[j]); }
    GroupSettingsBuild(ps);
    GroupSelects(hs, targets, i);
    PayloadFacts(hs[i], targets[i]);
  }
}
