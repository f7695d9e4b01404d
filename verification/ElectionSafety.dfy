/** What every run of the election keeps: one leader at a time, no lost record,
    and a bound on how often anyone is elected. */
module ElectionSafety {
  import opened Common
  import opened AutoState
  import opened Election

  predicate IsLeader(s: State, p: int) {
    p in s.procs && p in s.host.alive && Leads(s.procs[p].pc)
  }

  /** The record a leader wrote when it claimed the election. */
  predicate ClaimRecord(r: Record, p: int, host: Host) {
    r.status == Starting && r.ownerPid == p && p > 0 && r.ownerFp == Some(host.fp) && r.address == Some("")
  }

  ghost predicate Inv(s: State) {
    && (forall p | p in s.procs :: p > 0)
    && (forall p | p in s.procs && s.procs[p].pc.Owner? :: s.procs[p].pc.address != "")
    && (forall p | p in s.procs && s.procs[p].pc.Launched? :: s.procs[p].pc.address != "")
    && (forall p | IsLeader(s, p) ::
          s.file == Some(s.procs[p].pc.leader) && ClaimRecord(s.procs[p].pc.leader, p, s.host))
  }

  lemma OnlyLeadersRecord(s: State, e: Event)
    requires Inv(s) && Enabled(s, e)
    ensures e.RecordOutcome? ==> IsLeader(s, e.p) && s.procs[e.p].pc.leader.ownerPid == e.p
  {
    if e.RecordOutcome? { assert IsLeader(s, e.p); }
  }

  /** No step other than the leader's own touches the record of a live launch. */
  lemma LiveClaimSurvives(s: State, e: Event, p: int)
    requires Inv(s) && Enabled(s, e) && NoSharedSession(s, e)
    requires IsLeader(s, p)
    requires !(IsElectionStep(e) && e.p == p) && e != Crash(p)
    ensures Apply(s, e).file == s.file
  {
    var r := s.file.value;
    assert ClaimRecord(r, p, s.host) && HasLiveOwner(s.host, r);
    OnlyLeadersRecord(s, e);
  }

  /** A process that leads after a step has its claim on disk. */
  lemma LeaderHasClaim(s: State, e: Event, p: int)
    requires Inv(s) && Enabled(s, e) && NoSharedSession(s, e) && IsLeader(Apply(s, e), p)
    ensures var s' := Apply(s, e);
            s'.file == Some(s'.procs[p].pc.leader) && ClaimRecord(s'.procs[p].pc.leader, p, s'.host)
  {
    if IsLeader(s, p) && !(IsElectionStep(e) && e.p == p) {
      LiveClaimSurvives(s, e, p);
    }
  }

  lemma InvStep(s: State, e: Event)
    requires Inv(s) && Enabled(s, e) && NoSharedSession(s, e)
    ensures Inv(Apply(s, e))
  {
    var s' := Apply(s, e);
    forall p | IsLeader(s', p)
      ensures s'.file == Some(s'.procs[p].pc.leader) && ClaimRecord(s'.procs[p].pc.leader, p, s'.host)
    {
      LeaderHasClaim(s, e, p);
    }
  }

  lemma {:induction false} InvHolds(s: State, es: seq<Event>)
    requires Inv(s) && IsRun(s, es)
    ensures Feasible(s, es) && Inv(Final(s, es))
    decreases |es|
  {
    if es != [] {
      InvStep(s, es[0]);
      InvHolds(Apply(s, es[0]), es[1..]);
    }
  }

  /** In every run, whatever file it starts from, at most one live process is
      between its claim and its outcome, and the record on disk is that claim. */
  lemma MutualExclusion(s: State, es: seq<Event>)
    requires Initial(s) && IsRun(s, es)
    ensures Feasible(s, es)
    ensures var f := Final(s, es);
            && (forall p, q | IsLeader(f, p) && IsLeader(f, q) :: p == q)
            && (forall p | IsLeader(f, p) :: f.file == Some(f.procs[p].pc.leader)
                                             && f.procs[p].pc.leader.status == Starting
                                             && f.procs[p].pc.leader.ownerPid == p)
  {
    InvHolds(s, es);
  }

  /** The READY or FAILED write, made without reading the file again, always
      replaces the writer's own STARTING record. After a launch it is that record made
      READY with the address and session launched; after a failure it is that record
      with nothing changed but the status. */
  lemma OutcomeReplacesOwnClaim(s: State, es: seq<Event>, p: int)
    requires Initial(s) && IsRun(s, es)
    requires Enabled(Final(s, es), RecordOutcome(p))
    ensures var before := Final(s, es).file;
            var after := Apply(Final(s, es), RecordOutcome(p)).file;
            var pc, pc' := Final(s, es).procs[p].pc, Apply(Final(s, es), RecordOutcome(p)).procs[p].pc;
            && before.Some? && after.Some?
            && before.value.status == Starting && before.value.ownerPid == p
            && (pc.Launched? ==>
                  && after.value == before.value.(status := Ready, address := Some(pc.address), sessionId := Some(pc.session))
                  && pc' == Owner(pc.address, pc.session))
            && (!pc.Launched? ==> after.value == before.value.(status := Failed) && pc' == Raised(StartFailed))
  {
    InvHolds(s, es);
    assert IsLeader(Final(s, es), p);
  }

  // ----- every published daemon was launched

  /** Process `p` launched a daemon at `address` for `session` in the steps `done`. */
  ghost predicate WasLaunched(done: seq<Event>, p: int, address: string, session: string) {
    LaunchOk(p, address, session) in done
  }

  /** What a process has launched is in the history, and a leader's claim is its own. */
  ghost predicate PcLaunched(pc: Pc, p: int, done: seq<Event>) {
    && (Leads(pc) ==> pc.leader.ownerPid == p)
    && (pc.Launched? || pc.Owner? ==> WasLaunched(done, p, pc.address, pc.session))
  }

  ghost predicate FileLaunched(file: Option<Record>, done: seq<Event>) {
    file.Some? ==> file.value.status != Listening && (file.value.status == Ready ==> PublishedLaunch(file.value, done))
  }

  ghost predicate LaunchInv(s: State, done: seq<Event>) {
    FileLaunched(s.file, done) && forall p | p in s.procs :: PcLaunched(s.procs[p].pc, p, done)
  }

  /** The record names the address and session of a launch by its owner. */
  ghost predicate PublishedLaunch(r: Record, done: seq<Event>) {
    r.address.Some? && r.sessionId.Some? && WasLaunched(done, r.ownerPid, r.address.value, r.sessionId.value)
  }

  lemma LaunchedStays(pc: Pc, p: int, file: Option<Record>, done: seq<Event>, e: Event)
    ensures PcLaunched(pc, p, done) ==> PcLaunched(pc, p, done + [e])
    ensures FileLaunched(file, done) ==> FileLaunched(file, done + [e])
  {
  }

  lemma LaunchFileStep(s: State, done: seq<Event>, e: Event)
    requires LaunchInv(s, done) && Enabled(s, e)
    ensures FileLaunched(Apply(s, e).file, done)
  {
    if e.RecordOutcome? { assert PcLaunched(s.procs[e.p].pc, e.p, done); }
  }

  lemma LaunchPcStep(s: State, done: seq<Event>, e: Event, p: int)
    requires LaunchInv(s, done) && Enabled(s, e) && p in Apply(s, e).procs
    ensures PcLaunched(Apply(s, e).procs[p].pc, p, done + [e])
  {
    assert p in s.procs && PcLaunched(s.procs[p].pc, p, done);
    LaunchedStays(s.procs[p].pc, p, s.file, done, e);
    assert e in done + [e];
  }

  lemma LaunchStep(s: State, done: seq<Event>, e: Event)
    requires LaunchInv(s, done) && Enabled(s, e)
    ensures LaunchInv(Apply(s, e), done + [e])
  {
    var s' := Apply(s, e);
    LaunchFileStep(s, done, e);
    LaunchedStays(Idle, 0, s'.file, done, e);
    forall p | p in s'.procs ensures PcLaunched(s'.procs[p].pc, p, done + [e]) {
      LaunchPcStep(s, done, e, p);
    }
  }

  lemma {:induction false} LaunchInvHolds(s: State, done: seq<Event>, es: seq<Event>)
    requires LaunchInv(s, done) && Feasible(s, es)
    ensures LaunchInv(Final(s, es), done + es)
    decreases |es|
  {
    if es == [] {
      assert done + es == done;
    } else {
      LaunchStep(s, done, es[0]);
      LaunchInvHolds(Apply(s, es[0]), done + [es[0]], es[1..]);
      assert done + [es[0]] + es[1..] == done + es;
    }
  }

  /** From no file, in every execution, crashes and closes included: a READY record names
      the address and session of a launch that its owner made, and so does every owner. */
  lemma ReadyWasLaunched(s: State, es: seq<Event>)
    requires Initial(s) && s.file == None && Feasible(s, es)
    ensures var f := Final(s, es);
            && (f.file.Some? && f.file.value.status == Ready ==> PublishedLaunch(f.file.value, es))
            && (forall p | p in f.procs && f.procs[p].pc.Owner? ::
                  WasLaunched(es, p, f.procs[p].pc.address, f.procs[p].pc.session))
  {
    LaunchInvHolds(s, [], es);
    assert [] + es == es;
    var f := Final(s, es);
    forall p | p in f.procs && f.procs[p].pc.Owner?
      ensures WasLaunched(es, p, f.procs[p].pc.address, f.procs[p].pc.session)
    {
      assert PcLaunched(f.procs[p].pc, p, es);
    }
  }

  /** Everything an election step can do to the record: nothing, erase one whose
      owner is dead, claim an EMPTY one, or record the outcome of its own claim. */
  lemma RecordTransitions(s: State, es: seq<Event>, e: Event)
    requires Initial(s) && IsRun(s, es)
    requires IsElectionStep(e) && Enabled(Final(s, es), e)
    ensures var f := Final(s, es);
            var r, r' := Read(f.file), Apply(f, e).file;
            || r' == f.file
            || (r' == Some(DEFAULT) && r.status != Empty
                && (r.ownerPid <= 0 || r.ownerPid !in f.host.alive || r.ownerFp !in {None, Some(f.host.fp)}))
            || (r.status == Empty && r'.Some? && r'.value.status == Starting && r'.value.ownerPid == e.p
                && r'.value.epoch == r.epoch + 1)
            || (r.status == Starting && r.ownerPid == e.p && r'.Some? && r'.value.status in {Ready, Failed}
                && r'.value.ownerPid == e.p)
  {
    InvHolds(s, es);
    if e.RecordOutcome? { assert IsLeader(Final(s, es), e.p); }
  }

  /** No election step of any process changes a FAILED record with a live owner. */
  lemma FailedRecordIsKept(s: State, es: seq<Event>, e: Event)
    requires Initial(s) && IsRun(s, es)
    requires IsElectionStep(e) && Enabled(Final(s, es), e)
    requires Final(s, es).file.Some? && Final(s, es).file.value.status == Failed
    requires var r, host := Final(s, es).file.value, Final(s, es).host;
             r.ownerPid > 0 && r.ownerPid in host.alive && r.ownerFp in {None, Some(host.fp)}
    ensures Apply(Final(s, es), e).file == Final(s, es).file
  {
    RecordTransitions(s, es, e);
  }

  // ----- epochs

  ghost predicate EpochInv(s: State) {
    && Inv(s)
    && (s.file.Some? ==> s.file.value.epoch == if s.file.value.status == Empty then 0 else 1)
  }

  lemma EpochStep(s: State, e: Event)
    requires EpochInv(s) && Enabled(s, e) && NoSharedSession(s, e)
    ensures EpochInv(Apply(s, e))
  {
    InvStep(s, e);
    if e.RecordOutcome? { assert IsLeader(s, e.p); }
  }

  /** From no file, a reachable record has epoch 0 when EMPTY and 1 otherwise:
      resets and deletions restart the count. */
  lemma {:induction false} EpochHolds(s: State, es: seq<Event>)
    requires EpochInv(s) && IsRun(s, es)
    ensures Feasible(s, es) && EpochInv(Final(s, es))
    decreases |es|
  {
    if es != [] {
      EpochStep(s, es[0]);
      EpochHolds(Apply(s, es[0]), es[1..]);
    }
  }

  lemma EpochNeverPassesOne(s: State, es: seq<Event>)
    requires Initial(s) && s.file == None && IsRun(s, es)
    ensures Feasible(s, es)
    ensures var f := Final(s, es).file;
            f.Some? ==> (f.value.epoch == 0 <==> f.value.status == Empty)
                        && (f.value.epoch == 1 <==> f.value.status != Empty)
  {
    EpochHolds(s, es);
  }

  // ----- how often anyone is elected

  predicate IsClaim(s: State, e: Event)
    requires Enabled(s, e)
  {
    e.Elect? && Apply(s, e).procs[e.p].pc.Launching?
  }

  ghost function Claims(s: State, es: seq<Event>): nat
    requires Feasible(s, es)
    decreases |es|
  {
    if es == [] then 0
    else (if IsClaim(s, es[0]) then 1 else 0) + Claims(Apply(s, es[0]), es[1..])
  }

  /** A running pid crashes, or an owner context is closed. */
  predicate Departs(s: State, e: Event) {
    (e.Crash? && e.pid in s.host.alive) || e.Close? || e.CloseElsewhere?
  }

  ghost function Departures(s: State, es: seq<Event>): nat
    requires Feasible(s, es)
    decreases |es|
  {
    if es == [] then 0
    else (if Departs(s, es[0]) then 1 else 0) + Departures(Apply(s, es[0]), es[1..])
  }

  /** 1 when the record names no running owner, so that an election may follow. */
  function Vacant(s: State): nat {
    if Read(s.file).status != Empty && HasLiveOwner(s.host, Read(s.file)) then 0 else 1
  }

  lemma VacancyStep(s: State, e: Event)
    requires Inv(s) && Enabled(s, e) && NoSharedSession(s, e)
    ensures (if IsClaim(s, e) then 1 else 0) + Vacant(Apply(s, e)) <= Vacant(s) + if Departs(s, e) then 1 else 0
  {
    if e.RecordOutcome? { assert IsLeader(s, e.p); }
  }

  lemma {:induction false} ClaimsBounded(s: State, es: seq<Event>)
    requires Inv(s) && IsRun(s, es)
    ensures Feasible(s, es)
    ensures Claims(s, es) + Vacant(Final(s, es)) <= Vacant(s) + Departures(s, es)
    decreases |es|
  {
    if es != [] {
      VacancyStep(s, es[0]);
      InvStep(s, es[0]);
      ClaimsBounded(Apply(s, es[0]), es[1..]);
    }
  }

  /** Single flight: every election after the first is paid for by a crash or a
      closed context, so without either at most one process ever launches. */
  lemma ElectionsArePaidFor(s: State, es: seq<Event>)
    requires Initial(s) && IsRun(s, es)
    ensures Feasible(s, es)
    ensures Claims(s, es) <= 1 + Departures(s, es)
    ensures (Read(s.file).status != Empty && HasLiveOwner(s.host, Read(s.file)))
            ==> Claims(s, es) <= Departures(s, es)
  {
    ClaimsBounded(s, es);
  }

  // ----- agreement on one daemon

  /** A connection decided on a READY record. */
  predicate FollowsRecord(pc: Pc) {
    (pc.Pinging? || pc.Connected?) && pc.seen.status == Ready
  }

  ghost predicate AgreeInv(s: State) {
    var r := Read(s.file);
    && Inv(s)
    && r.status != Listening
    && (r.status != Empty ==> HasLiveOwner(s.host, r))
    && (r.status == Ready ==> Truthy(r.address))
    && (forall p | p in s.procs && s.procs[p].pc.Owner? ::
          r.status == Ready && r.address == Some(s.procs[p].pc.address))
    && (forall p | p in s.procs && FollowsRecord(s.procs[p].pc) ::
          r.status == Ready && r.address == Some(s.procs[p].pc.connect))
  }

  lemma AgreeFile(s: State, e: Event)
    requires AgreeInv(s) && Enabled(s, e) && !Departs(s, e)
    ensures var s' := Apply(s, e);
            var r, r' := Read(s.file), Read(s'.file);
            && s'.host == s.host
            && r'.status != Listening
            && (r'.status != Empty ==> HasLiveOwner(s'.host, r'))
            && (r'.status == Ready ==> Truthy(r'.address))
            && (r.status == Ready ==> s'.file == s.file)
  {
    OnlyLeadersRecord(s, e);
    assert e.Crash? ==> s.host.alive - {e.pid} == s.host.alive;
  }

  lemma AgreeProcess(s: State, e: Event, p: int)
    requires AgreeInv(s) && Enabled(s, e) && !Departs(s, e) && p in Apply(s, e).procs
    ensures var s' := Apply(s, e);
            var r' := Read(s'.file);
            var pc := s'.procs[p].pc;
            && (pc.Owner? ==> r'.status == Ready && r'.address == Some(pc.address))
            && (FollowsRecord(pc) ==> r'.status == Ready && r'.address == Some(pc.connect))
  {
    AgreeFile(s, e);
    OnlyLeadersRecord(s, e);
  }

  lemma AgreeStep(s: State, e: Event)
    requires AgreeInv(s) && Enabled(s, e) && !Departs(s, e)
    ensures AgreeInv(Apply(s, e))
  {
    InvStep(s, e);
    AgreeFile(s, e);
    var s' := Apply(s, e);
    forall p | p in s'.procs
      ensures s'.procs[p].pc.Owner? ==>
                Read(s'.file).status == Ready && Read(s'.file).address == Some(s'.procs[p].pc.address)
      ensures FollowsRecord(s'.procs[p].pc) ==>
                Read(s'.file).status == Ready && Read(s'.file).address == Some(s'.procs[p].pc.connect)
    {
      AgreeProcess(s, e, p);
    }
  }

  lemma {:induction false} AgreeHolds(s: State, es: seq<Event>)
    requires AgreeInv(s) && Feasible(s, es) && Departures(s, es) == 0
    ensures AgreeInv(Final(s, es))
    decreases |es|
  {
    if es != [] {
      AgreeStep(s, es[0]);
      AgreeHolds(Apply(s, es[0]), es[1..]);
    }
  }

  /** From no file, while nobody crashes or closes, all processes share one
      daemon: owners agree on the address, and whoever decides on a READY record
      connects to that address, whatever else it observed. */
  lemma OneSharedDaemon(s: State, es: seq<Event>, p: int, q: int)
    requires Initial(s) && s.file == None && Feasible(s, es) && Departures(s, es) == 0
    requires var f := Final(s, es); p in f.procs && q in f.procs
    ensures var f := Final(s, es);
            var a, b := f.procs[p].pc, f.procs[q].pc;
            && (a.Owner? && FollowsRecord(b) ==> b.connect == a.address)
            && (a.Owner? && b.Owner? ==> a.address == b.address)
            && (FollowsRecord(a) && FollowsRecord(b) ==> a.connect == b.connect)
            && (FollowsRecord(a) ==> f.file.Some? && HasLiveOwner(f.host, f.file.value))
  {
    AgreeHolds(s, es);
  }

  // ----- why a shared session id must be excluded

  /** With a launch in progress, a closing context deletes the leader's claim
      exactly when it carries the session id of that claim. */
  lemma CloseDeletesClaimIff(s: State, e: Event, p: int)
    requires Inv(s) && IsLeader(s, p)
    requires (e.Close? || e.CloseElsewhere?) && Enabled(s, e)
    ensures Apply(s, e).file != s.file <==> !NoSharedSession(s, e)
  {
    assert HasLiveOwner(s.host, s.file.value);
  }

  const HOST := Host(Fingerprint("h", "b"), {1, 2})
  const CFG := Config("c", Some("s"), 180.0)

  /** A run that elects process `p` from a missing file. */
  function ElectRun(p: int): seq<Event> {
    [Begin(p, CFG), Observe(p, None), Elect(p, 1.0)]
  }

  lemma ElectRunElects(s: State, p: int)
    requires p in s.procs && p in s.host.alive && s.procs[p].pc.Idle? && s.file == None
    ensures Feasible(s, ElectRun(p))
    ensures var claim := Claim(DEFAULT, p, s.host, CFG, 1.0);
            Final(s, ElectRun(p)) == State(Some(claim), s.host, s.procs[p := Process(Launching(claim), CFG)])
  {
    var es := ElectRun(p);
    var s1 := Apply(s, es[0]);
    var s2 := Apply(s1, es[1]);
    assert Enabled(s2, es[2]);
    FinalOne(s2, es[2]);
    FinalOne(s1, es[1]);
    FinalOne(s, es[0]);
    FinalAppend(s, [es[0]], [es[1]]);
    FinalAppend(s, [es[0]] + [es[1]], [es[2]]);
    assert [es[0]] + [es[1]] + [es[2]] == es;
  }

  function SharedIdStart(): State {
    State(None, HOST, map[1 := Process(Idle, CFG), 2 := Process(Idle, CFG)])
  }

  const FIRST_CLAIM := Claim(DEFAULT, 1, HOST, CFG, 1.0)

  function ClaimDeleted(): State {
    State(None, HOST, map[1 := Process(Launching(FIRST_CLAIM), CFG), 2 := Process(Idle, CFG)])
  }

  lemma CloseDeletesClaim()
    ensures Feasible(SharedIdStart(), ElectRun(1) + [CloseElsewhere("s", "a:1")])
    ensures Final(SharedIdStart(), ElectRun(1) + [CloseElsewhere("s", "a:1")]) == ClaimDeleted()
  {
    var s, close := SharedIdStart(), CloseElsewhere("s", "a:1");
    ElectRunElects(s, 1);
    var led := State(Some(FIRST_CLAIM), HOST, s.procs[1 := Process(Launching(FIRST_CLAIM), CFG)]);
    FinalOne(led, close);
    assert Apply(led, close) == ClaimDeleted();
    FinalAppend(s, ElectRun(1), [close]);
  }

  /** A context that closes with the explicit id of a launch in progress deletes
      the leader's claim, and a second process is then elected beside it. */
  lemma SharedSessionIdElectsTwo()
    ensures var es := ElectRun(1) + [CloseElsewhere("s", "a:1")] + ElectRun(2);
            && Initial(SharedIdStart()) && Feasible(SharedIdStart(), es)
            && IsLeader(Final(SharedIdStart(), es), 1) && IsLeader(Final(SharedIdStart(), es), 2)
  {
    CloseDeletesClaim();
    ElectRunElects(ClaimDeleted(), 2);
    FinalAppend(SharedIdStart(), ElectRun(1) + [CloseElsewhere("s", "a:1")], ElectRun(2));
  }
}
