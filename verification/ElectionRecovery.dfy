/** What one process can rely on: recovery from a dead owner's record, a bounded
    wait for a live one, and when its configuration hash is enforced. */
module ElectionRecovery {
  import opened Common
  import opened Text
  import opened AutoState
  import opened Election
  import opened AutoInit

  // ----- recovery of a lone process

  /** One iteration with no reachable daemon and no other process moving. */
  function Iterate(s: State, p: int, now: real): State
    requires AtLoopTop(s, p)
  {
    UpToLaunch(s, p, Observation(None, now, false, None))
  }

  /** The records a lone process clears by itself. */
  predicate Recoverable(r: Record, host: Host, cfg: Config) {
    && r.status != Empty
    && !HasLiveOwner(host, r)
    && (|| r.status == Starting
        || r.ownerPid > 0
        || (r.status == Listening && HashDiffers(r, cfg))
        || (r.status in {Listening, Ready} && Truthy(r.address) && Trimmed(r.address.value)))
  }

  /** What the locked section decides when no daemon was observed. */
  lemma DecideAlone(r: Record, me: int, host: Host, cfg: Config, now: real)
    ensures var a := Decide(r, me, host, cfg, None, now);
            && (a.Create? <==> r.status == Empty)
            && (a.Reset? ==> Recoverable(r, host, cfg))
            && (a.Wait? ==> r.status == Starting && HasLiveOwner(host, r))
            && (a.Connect? ==> r.status in {Listening, Ready} && r.address == Some(a.address) && a.address != ""
                               && (r.ownerPid > 0 ==> HasLiveOwner(host, r))
                               && (r.status == Listening ==> !HashDiffers(r, cfg)))
            && (a.Raise? ==> !Recoverable(r, host, cfg))
  {
  }

  /** A record whose address does not answer is reset exactly when it is recoverable. */
  lemma AfterFailedConnect(r: Record, host: Host, cfg: Config, connect: string)
    requires r.status in {Listening, Ready} && r.address == Some(connect) && connect != ""
    requires r.ownerPid > 0 ==> HasLiveOwner(host, r)
    requires r.status == Listening ==> !HashDiffers(r, cfg)
    ensures AfterFailedPing(r, host, connect) == if Recoverable(r, host, cfg) then TryReset else GiveUp
    ensures Recoverable(r, host, cfg) ==> StaleAt(r, host, connect)
  {
    StripProps(connect);
  }

  /** The iteration of a process that tries the recorded address in vain. */
  lemma ConnectInVain(s: State, p: int, now: real)
    requires AtLoopTop(s, p) && Decide(Read(s.file), p, s.host, s.procs[p].cfg, None, now).Connect?
    ensures var r, cfg, s' := Read(s.file), s.procs[p].cfg, Iterate(s, p, now);
            && s'.host == s.host && p in s'.procs && s'.procs[p].cfg == cfg
            && (if Recoverable(r, s.host, cfg) then AtLoopTop(s', p) && s'.file == Some(DEFAULT)
                else s'.procs[p].pc.Raised? && s'.file == s.file)
  {
    var r, cfg := Read(s.file), s.procs[p].cfg;
    DecideAlone(r, p, s.host, cfg, now);
    AfterFailedConnect(r, s.host, cfg, Decide(r, p, s.host, cfg, None, now).address);
  }

  lemma FirstIteration(s: State, p: int, now: real)
    requires AtLoopTop(s, p)
    ensures var r, cfg, s' := Read(s.file), s.procs[p].cfg, Iterate(s, p, now);
            && s'.host == s.host && p in s'.procs && s'.procs[p].cfg == cfg
            && (s'.procs[p].pc.Launching? <==> r.status == Empty)
            && (Recoverable(r, s.host, cfg) ==> AtLoopTop(s', p) && s'.file == Some(DEFAULT))
            && (r.status != Empty && !Recoverable(r, s.host, cfg) ==>
                  s'.file == s.file && (s'.procs[p].pc.Raised?
                                        || (AtLoopTop(s', p) && r.status == Starting && HasLiveOwner(s.host, r))))
  {
    var r, cfg := Read(s.file), s.procs[p].cfg;
    var a := Decide(r, p, s.host, cfg, None, now);
    DecideAlone(r, p, s.host, cfg, now);
    if a.Connect? {
      ConnectInVain(s, p, now);
    }
  }

  /** With no reachable daemon and no interference, a lone process is elected at
      once from an EMPTY record, and in its second iteration exactly from the
      recoverable ones; any other record either makes it raise in the first
      iteration or belongs to a live launch, which it leaves alone. */
  lemma LoneRecovery(s: State, p: int, now: real, later: real)
    requires AtLoopTop(s, p)
    ensures var r, cfg, s1 := Read(s.file), s.procs[p].cfg, Iterate(s, p, now);
            && p in s1.procs
            && (s1.procs[p].pc.Launching? <==> r.status == Empty)
            && ((AtLoopTop(s1, p) && p in Iterate(s1, p, later).procs && Iterate(s1, p, later).procs[p].pc.Launching?)
                <==> Recoverable(r, s.host, cfg))
            && (r.status != Empty && !Recoverable(r, s.host, cfg) ==>
                  s1.file == s.file && (s1.procs[p].pc.Raised?
                                        || (AtLoopTop(s1, p) && r.status == Starting && HasLiveOwner(s.host, r))))
  {
    FirstIteration(s, p, now);
    var s1 := Iterate(s, p, now);
    if AtLoopTop(s1, p) { FirstIteration(s1, p, later); }
  }

  /** A record whose owner pid is gone, or whose owner ran on another machine or before a
      reboot, even if the pid is in use again, never blocks: at most two iterations. */
  lemma DeadOwnerNeverBlocks(s: State, p: int, now: real, later: real)
    requires AtLoopTop(s, p)
    requires var r := Read(s.file);
             r.ownerPid > 0 && (r.ownerPid !in s.host.alive || r.ownerFp !in {None, Some(s.host.fp)})
    ensures var s1 := Iterate(s, p, now);
            p in s1.procs
            && (s1.procs[p].pc.Launching?
                || (AtLoopTop(s1, p) && p in Iterate(s1, p, later).procs
                    && Iterate(s1, p, later).procs[p].pc.Launching?))
  {
    LoneRecovery(s, p, now, later);
  }

  /** Whatever a process observes, one iteration clears a FAILED record exactly when its
      owner is not alive and either no daemon was observed and the record names an owner,
      or the observed daemon is the recorded one and does not answer. */
  lemma FailedRecordClearedIff(s: State, p: int, o: Observation)
    requires AtLoopTop(s, p) && Read(s.file).status == Failed
    ensures var r, s' := Read(s.file), UpToLaunch(s, p, o);
            && p in s'.procs && !s'.procs[p].pc.Launching?
            && s'.file in {s.file, Some(DEFAULT)}
            && (s'.file != s.file <==>
                  && !HasLiveOwner(s.host, r)
                  && (if Truthy(o.existing)
                      then !o.reachable && StrippedAddress(r) != "" && StrippedAddress(r) == o.existing.value
                      else r.ownerPid > 0))
  {
  }

  // ----- waiting for a live leader

  const POLL_INTERVAL := 0.2

  /** The clock readings of successive polls, at least one poll interval apart. */
  predicate PollTimes(r: Record, times: seq<real>) {
    && (times != [] ==> times[0] >= r.startedAt)
    && forall i | 0 < i < |times| :: times[i] >= times[i - 1] + POLL_INTERVAL
  }

  lemma {:induction false} PollTimesGrow(r: Record, times: seq<real>, k: nat)
    requires PollTimes(r, times) && k < |times|
    ensures times[k] >= r.startedAt + POLL_INTERVAL * k as real
  {
    if k > 0 { PollTimesGrow(r, times, k - 1); }
  }

  /** What keeps a follower in the loop: the launch is still alive and in time, and the
      process either waited or failed to reach the address it had observed. */
  lemma StaysInLoop(s: State, p: int, o: Observation)
    requires AtLoopTop(s, p) && Read(s.file).status == Starting
    ensures var r, s' := Read(s.file), UpToLaunch(s, p, o);
            (AtLoopTop(s', p) && s'.file == s.file) <==>
              && HasLiveOwner(s.host, r) && !HashDiffers(r, s.procs[p].cfg)
              && Elapsed(r, o.now) <= s.procs[p].cfg.timeout
              && (Truthy(o.existing) ==> !o.reachable)
  {
  }

  /** Iterations of process `p`, each from its own state, that all find the record `r`,
      leave it and come round again. Between them anything may happen. */
  ghost predicate Follows(ss: seq<State>, os: seq<Observation>, p: int, r: Record, timeout: real) {
    |ss| == |os| && forall i | 0 <= i < |ss| ::
      && AtLoopTop(ss[i], p) && Read(ss[i].file) == r && ss[i].procs[p].cfg.timeout == timeout
      && AtLoopTop(UpToLaunch(ss[i], p, os[i]), p) && UpToLaunch(ss[i], p, os[i]).file == ss[i].file
  }

  function Times(os: seq<Observation>): (times: seq<real>)
    ensures |times| == |os|
  {
    seq(|os|, i requires 0 <= i < |os| => os[i].now)
  }

  /** Whatever a process observes, it goes round at most floor(timeout / 0.2) + 1 times
      on one STARTING record, whether it waits or fails to connect. */
  lemma WaitIsBounded(ss: seq<State>, os: seq<Observation>, p: int, r: Record, timeout: real)
    requires r.status == Starting && r.startedAt > 0.0 && Follows(ss, os, p, r, timeout) && PollTimes(r, Times(os))
    ensures os != [] ==> |os| <= (timeout / 0.2).Floor + 1
  {
    if os != [] {
      var k := |os| - 1;
      PollTimesGrow(r, Times(os), k);
      assert Times(os)[k] == os[k].now;
      StaysInLoop(ss[k], p, os[k]);
      assert k as real <= timeout / POLL_INTERVAL;
    }
  }

  /** The bound is reached by a leader that never finishes. */
  lemma WaitBoundIsTight(s: State, p: int, os: seq<Observation>)
    requires AtLoopTop(s, p) && Read(s.file).status == Starting && Read(s.file).startedAt > 0.0
    requires HasLiveOwner(s.host, Read(s.file)) && !HashDiffers(Read(s.file), s.procs[p].cfg)
    requires s.procs[p].cfg.timeout >= 0.0
    requires |os| == (s.procs[p].cfg.timeout / 0.2).Floor + 1
    requires forall i | 0 <= i < |os| ::
               os[i].now == Read(s.file).startedAt + POLL_INTERVAL * i as real && (Truthy(os[i].existing) ==> !os[i].reachable)
    ensures PollTimes(Read(s.file), Times(os))
    ensures Follows(seq(|os|, _ => s), os, p, Read(s.file), s.procs[p].cfg.timeout)
  {
    var r, timeout := Read(s.file), s.procs[p].cfg.timeout;
    forall i | 0 <= i < |os|
      ensures AtLoopTop(UpToLaunch(s, p, os[i]), p) && UpToLaunch(s, p, os[i]).file == s.file
    {
      assert i as real <= timeout / POLL_INTERVAL;
      assert Elapsed(r, os[i].now) <= timeout;
      StaysInLoop(s, p, os[i]);
    }
  }

  /** The deadline exists exactly for records that carry a start time. */
  lemma TimeoutNeedsStartTime(r: Record, me: int, host: Host, cfg: Config, existing: Option<string>)
    requires r.status == Starting && HasLiveOwner(host, r) && !HashDiffers(r, cfg) && cfg.timeout > 0.0
    ensures (exists now: real :: Decide(r, me, host, cfg, existing, now) == Raise(StartTimeout)) <==> r.startedAt > 0.0
  {
    if r.startedAt > 0.0 {
      var now := r.startedAt + cfg.timeout + 1.0;
      assert Decide(r, me, host, cfg, existing, now) == Raise(StartTimeout);
    }
  }

  // ----- the configuration hash

  /** The observation before the lock names the address in the record. */
  predicate ObservedAtRecord(r: Record, existing: Option<string>) {
    Truthy(existing) && StrippedAddress(r) != "" && StrippedAddress(r) == existing.value
  }

  /** Exactly when a process decides to connect although the recorded hash contradicts its own. */
  lemma ConnectDespiteHash(r: Record, me: int, host: Host, cfg: Config, existing: Option<string>, now: real)
    requires HashDiffers(r, cfg)
    ensures Decide(r, me, host, cfg, existing, now).Connect? <==>
              || (r.status in {Empty, Failed} && Truthy(existing))
              || (&& r.status == Ready && !ObservedAtRecord(r, existing)
                  && (r.ownerPid > 0 ==> HasLiveOwner(host, r))
                  && (Truthy(r.address) || Truthy(existing)))
  {
  }

  /** A connection goes to the address of a LISTENING or READY record that has one,
      and otherwise to the address that answered before the lock was taken. */
  predicate TargetJustified(pc: Pc) {
    pc.Pinging? || pc.Connected? ==>
      if pc.seen.status in {Listening, Ready} && Truthy(pc.seen.address)
      then pc.seen.address == Some(pc.connect)
      else pc.existing == Some(pc.connect) && pc.connect != ""
  }

  /** A connection respected the recorded hash, or fell in one of the open cases. */
  predicate HashRespected(pc: Pc, cfg: Config) {
    pc.Pinging? || pc.Connected? ==>
      HashDiffers(pc.seen, cfg) ==>
        || pc.seen.status in {Empty, Failed}
        || (pc.seen.status == Ready && !ObservedAtRecord(pc.seen, pc.existing))
  }

  ghost predicate ConnectInv(s: State) {
    forall p | p in s.procs :: TargetJustified(s.procs[p].pc) && HashRespected(s.procs[p].pc, s.procs[p].cfg)
  }

  lemma ConnectStep(s: State, e: Event)
    requires ConnectInv(s) && Enabled(s, e)
    ensures ConnectInv(Apply(s, e))
  {
    if e.Elect? && HashDiffers(Read(s.file), s.procs[e.p].cfg) {
      ConnectDespiteHash(Read(s.file), e.p, s.host, s.procs[e.p].cfg, s.procs[e.p].pc.existing, e.now);
    }
  }

  lemma {:induction false} ConnectInvHolds(s: State, es: seq<Event>)
    requires ConnectInv(s) && Feasible(s, es)
    ensures ConnectInv(Final(s, es))
    decreases |es|
  {
    if es != [] {
      ConnectStep(s, es[0]);
      ConnectInvHolds(Apply(s, es[0]), es[1..]);
    }
  }

  /** In every execution, a connection goes to the recorded address, or where there
      is none to the observed one; and if it was decided on a STARTING or LISTENING
      record, or on a READY record at the address observed before the lock, the
      recorded hash was empty or equal. */
  lemma ConnectionsAreJustified(s: State, es: seq<Event>, p: int)
    requires Initial(s) && Feasible(s, es)
    requires p in Final(s, es).procs && Final(s, es).procs[p].pc.Connected?
    ensures var q := Final(s, es).procs[p];
            && TargetJustified(q.pc)
            && (|| q.pc.seen.status in {Starting, Listening}
                || (q.pc.seen.status == Ready && ObservedAtRecord(q.pc.seen, q.pc.existing)) ==>
                  !HashDiffers(q.pc.seen, q.cfg))
  {
    ConnectInvHolds(s, es);
  }

  const HOST := Host(Fingerprint("h", "b"), {1, 2})
  const CFG1 := Config("one", None, 180.0)
  const CFG2 := Config("two", None, 180.0)

  function MismatchStart(): State {
    State(None, HOST, map[1 := Process(Idle, CFG1), 2 := Process(Idle, CFG2)])
  }

  const CALL_RUN: seq<Event> := [Begin(2, CFG2), Observe(2, None), Begin(1, CFG1), Observe(1, None)]
  const LAUNCH_RUN: seq<Event> := [Elect(1, 1.0), LaunchOk(1, "a:1", "s"), RecordOutcome(1)]
  const CONNECT_RUN: seq<Event> := [Elect(2, 2.0), Ping(2, true)]

  const READY_RECORD := Record(Ready, 1, 1, Some(HOST.fp), Some("one"), Some("s"), Some("a:1"), 1.0)

  function CalledState(): State {
    State(None, HOST, map[1 := Process(Deciding(None), CFG1), 2 := Process(Deciding(None), CFG2)])
  }

  function LaunchedState(): State {
    State(Some(READY_RECORD), HOST, map[1 := Process(Owner("a:1", "s"), CFG1), 2 := Process(Deciding(None), CFG2)])
  }

  lemma StepForward(s: State, es: seq<Event>)
    requires es != [] && Enabled(s, es[0]) && Feasible(Apply(s, es[0]), es[1..])
    ensures Feasible(s, es) && Final(s, es) == Final(Apply(s, es[0]), es[1..])
  {
  }

  lemma CallRun()
    ensures Feasible(MismatchStart(), CALL_RUN) && Final(MismatchStart(), CALL_RUN) == CalledState()
  {
    var es := CALL_RUN;
    var s0 := MismatchStart();
    var s1 := Apply(s0, es[0]);
    var s2 := Apply(s1, es[1]);
    var s3 := Apply(s2, es[2]);
    assert Apply(s3, es[3]) == CalledState();
    assert es[4..] == [];
    StepForward(s3, es[3..]); StepForward(s2, es[2..]); StepForward(s1, es[1..]); StepForward(s0, es);
  }

  lemma LaunchRun()
    ensures Feasible(CalledState(), LAUNCH_RUN) && Final(CalledState(), LAUNCH_RUN) == LaunchedState()
  {
    var es := LAUNCH_RUN;
    var s0 := CalledState();
    var s1 := Apply(s0, es[0]);
    assert s1.procs[1].pc.Launching?;
    var s2 := Apply(s1, es[1]);
    assert Apply(s2, es[2]) == LaunchedState();
    assert es[3..] == [];
    StepForward(s2, es[2..]); StepForward(s1, es[1..]); StepForward(s0, es);
  }

  lemma ConnectRun()
    ensures Feasible(LaunchedState(), CONNECT_RUN)
    ensures var f := Final(LaunchedState(), CONNECT_RUN);
            f.procs == LaunchedState().procs[2 := Process(Connected("a:1", READY_RECORD, None), CFG2)]
            && f.file == Some(READY_RECORD)
  {
    var es := CONNECT_RUN;
    var s0 := LaunchedState();
    var s1 := Apply(s0, es[0]);
    assert s1.procs[2].pc == Pinging("a:1", READY_RECORD, None);
    assert es[1..] == [es[1]];
    FinalOne(s1, es[1]);
    StepForward(s0, es);
  }

  /** A run in which process 2 looks for a daemon just before process 1 launches
      one, and then connects to it although the two configurations differ. */
  lemma StaleObservationSkipsHash()
    ensures var es := CALL_RUN + LAUNCH_RUN + CONNECT_RUN;
            && Initial(MismatchStart()) && Feasible(MismatchStart(), es)
            && 2 in Final(MismatchStart(), es).procs
            && Final(MismatchStart(), es).procs[2] == Process(Connected("a:1", READY_RECORD, None), CFG2)
            && Final(MismatchStart(), es).file == Some(READY_RECORD)
    ensures READY_RECORD.configHash == Some("one") && CFG2.expectedHash == "two"
  {
    CallRun();
    LaunchRun();
    ConnectRun();
    FinalAppend(MismatchStart(), CALL_RUN, LAUNCH_RUN);
    FinalAppend(MismatchStart(), CALL_RUN + LAUNCH_RUN, CONNECT_RUN);
  }
}
