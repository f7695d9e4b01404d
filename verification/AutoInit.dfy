/** The loop of `_init_auto_mode` as one process runs it when nobody else moves,
    and its place among the executions of the transition system. */
module AutoInit {
  import opened Common
  import opened AutoState
  import opened Election

  /** What one iteration sees outside the lock: the address observed beforehand, the
      clock, whether the chosen address answers, and the daemon that a launch would
      give (None when the launch raises). */
  datatype Observation = Observation(existing: Option<string>, now: real, reachable: bool, launch: Option<(string, string)>)

  predicate Plausible(o: Observation) {
    o.launch.Some? ==> o.launch.value.0 != ""
  }

  predicate AtLoopTop(s: State, p: int) {
    p in s.procs && p in s.host.alive && s.procs[p].pc.Observing?
  }

  /** What is done about an address that was chosen under the lock. */
  function Contact(s: State, p: int, o: Observation): State
    requires p in s.procs && p in s.host.alive && s.procs[p].pc.Pinging?
  {
    if o.reachable then Apply(s, Ping(p, true))
    else
      var s' := Apply(Apply(s, Ping(p, false)), Reread(p));
      match s'.procs[p].pc
      case Sleeping => Apply(s', Wake(p))
      case Refreshing(_) => Apply(Apply(s', Refresh(p)), Wake(p))
      case _ => s'
  }

  /** One iteration, up to the point where a launch would begin. */
  function UpToLaunch(s: State, p: int, o: Observation): State
    requires AtLoopTop(s, p)
  {
    var s2 := Apply(Apply(s, Observe(p, o.existing)), Elect(p, o.now));
    match s2.procs[p].pc
    case Sleeping => Apply(s2, Wake(p))
    case Pinging(_, _, _) => Contact(s2, p, o)
    case _ => s2
  }

  function Iteration(s: State, p: int, o: Observation): State
    requires AtLoopTop(s, p) && Plausible(o)
  {
    var s' := UpToLaunch(s, p, o);
    if p in s'.procs && p in s'.host.alive && s'.procs[p].pc.Launching? then
      var done := if o.launch.Some? then LaunchOk(p, o.launch.value.0, o.launch.value.1) else LaunchError(p);
      Apply(Apply(s', done), RecordOutcome(p))
    else s'
  }

  /** Iterations until the call returns or raises, or the observations run out. */
  function Loop(s: State, p: int, script: seq<Observation>): State
    requires forall i | 0 <= i < |script| :: Plausible(script[i])
    decreases |script|
  {
    if script == [] || !AtLoopTop(s, p) then s else Loop(Iteration(s, p, script[0]), p, script[1..])
  }

  function Alone(file: Option<Record>, host: Host, me: int, pc: Pc, cfg: Config): State {
    State(file, host, map[me := Process(pc, cfg)])
  }

  /** `_init_auto_mode` for one process, against the observations in `script`: it ends
      where the specification loop ends, by steps of its own from a state in which
      nobody has called init. */
  method InitAuto(file: AutoStateFile, me: int, host: Host, cfg: Config, script: seq<Observation>) returns (pc: Pc)
    requires me in host.alive && forall i | 0 <= i < |script| :: Plausible(script[i])
    modifies file
    ensures Alone(file.content, host, me, pc, cfg)
            == old(Loop(Alone(file.content, host, me, Observing, cfg), me, script))
    ensures Reaches(Alone(old(file.content), host, me, Idle, cfg), me, Alone(file.content, host, me, pc, cfg))
  {
    CallReaches(file.content, host, me, cfg, script);
    pc := Observing;
    ghost var target := Loop(Alone(file.content, host, me, Observing, cfg), me, script);
    for i := 0 to |script|
      invariant pc == Observing
      invariant Loop(Alone(file.content, host, me, pc, cfg), me, script[i..]) == target
    {
      assert script[i..][1..] == script[i + 1..];
      pc := InitOnce(file, me, host, cfg, script[i]);
      if pc != Observing {
        return;
      }
    }
  }

  /** One iteration of the loop; `Observing` asks for another. */
  method InitOnce(file: AutoStateFile, me: int, host: Host, cfg: Config, o: Observation) returns (pc: Pc)
    requires me in host.alive && Plausible(o)
    modifies file
    ensures Alone(file.content, host, me, pc, cfg)
            == old(Iteration(Alone(file.content, host, me, Observing, cfg), me, o))
  {
    IterationCases(file.content, host, me, cfg, o);
    var seen := file.ReadLocked();
    var next := file.ElectLocked(me, host, cfg, o.existing, o.now);
    match next {
      case Reset =>
        return Observing;
      case Wait =>
        return Observing;
      case Raise(code) =>
        return Raised(code);
      case Connect(connect) =>
        if o.reachable {
          return Connected(connect, seen, o.existing);
        }
        var latest := file.ReadLocked();
        var latestAlive := OwnerAlive(host, latest.ownerPid, latest.ownerFp);
        if latest.status == Starting {
          return Observing;
        }
        var latestAddress := StrippedAddress(latest);
        if latest.status in {Listening, Ready, Failed} && latestAddress != "" && latestAddress == connect && !latestAlive {
          file.RefreshLocked(host, connect);
          return Observing;
        }
        return Raised(NoDaemon);
      case Create(leader) =>
        if o.launch.None? {
          file.WriteLocked(FailedRecord(leader));
          return Raised(StartFailed);
        }
        file.WriteLocked(ReadyRecord(leader, o.launch.value.0, o.launch.value.1));
        return Owner(o.launch.value.0, o.launch.value.1);
    }
  }

  lemma SetAlone(file: Option<Record>, host: Host, me: int, pc: Pc, pc': Pc, cfg: Config)
    ensures SetPc(Alone(file, host, me, pc, cfg), me, pc') == Alone(file, host, me, pc', cfg)
  {
  }

  lemma AfterElect(file: Option<Record>, host: Host, me: int, cfg: Config, o: Observation)
    requires me in host.alive
    ensures var s := Alone(file, host, me, Observing, cfg);
            var a := Decide(Read(file), me, host, cfg, o.existing, o.now);
            Apply(Apply(s, Observe(me, o.existing)), Elect(me, o.now))
            == Alone(AfterDecide(file, a), host, me, PcAfterDecision(a, Read(file), o.existing), cfg)
  {
    SetAlone(file, host, me, Observing, Deciding(o.existing), cfg);
    var a := Decide(Read(file), me, host, cfg, o.existing, o.now);
    SetAlone(file, host, me, Deciding(o.existing), PcAfterDecision(a, Read(file), o.existing), cfg);
  }

  lemma LaunchCase(file: Option<Record>, host: Host, me: int, cfg: Config, leader: Record, o: Observation)
    requires me in host.alive && Plausible(o)
    ensures var s := Alone(file, host, me, Launching(leader), cfg);
            var l := o.launch;
            var done := if l.Some? then LaunchOk(me, l.value.0, l.value.1) else LaunchError(me);
            Apply(Apply(s, done), RecordOutcome(me)) ==
            if l.None? then Alone(Some(FailedRecord(leader)), host, me, Raised(StartFailed), cfg)
            else Alone(Some(ReadyRecord(leader, l.value.0, l.value.1)), host, me, Owner(l.value.0, l.value.1), cfg)
  {
    if o.launch.Some? {
      var l := o.launch.value;
      SetAlone(file, host, me, Launching(leader), Launched(leader, l.0, l.1), cfg);
      SetAlone(file, host, me, Launched(leader, l.0, l.1), Owner(l.0, l.1), cfg);
    } else {
      SetAlone(file, host, me, Launching(leader), LaunchFailed(leader), cfg);
      SetAlone(file, host, me, LaunchFailed(leader), Raised(StartFailed), cfg);
    }
  }

  lemma ContactCase(file: Option<Record>, host: Host, me: int, cfg: Config, connect: string, seen: Record, o: Observation)
    requires me in host.alive
    ensures Contact(Alone(file, host, me, Pinging(connect, seen, o.existing), cfg), me, o) ==
            if o.reachable then Alone(file, host, me, Connected(connect, seen, o.existing), cfg)
            else match AfterFailedPing(Read(file), host, connect)
              case Again => Alone(file, host, me, Observing, cfg)
              case TryReset => Alone(AfterRefresh(file, host, connect), host, me, Observing, cfg)
              case GiveUp => Alone(file, host, me, Raised(NoDaemon), cfg)
  {
    var pinging := Pinging(connect, seen, o.existing);
    if o.reachable {
      SetAlone(file, host, me, pinging, Connected(connect, seen, o.existing), cfg);
    } else {
      SetAlone(file, host, me, pinging, Rereading(connect), cfg);
      match AfterFailedPing(Read(file), host, connect)
      case Again =>
        SetAlone(file, host, me, Rereading(connect), Sleeping, cfg);
        SetAlone(file, host, me, Sleeping, Observing, cfg);
      case TryReset =>
        SetAlone(file, host, me, Rereading(connect), Refreshing(connect), cfg);
        SetAlone(file, host, me, Refreshing(connect), Sleeping, cfg);
        SetAlone(AfterRefresh(file, host, connect), host, me, Sleeping, Observing, cfg);
      case GiveUp =>
        SetAlone(file, host, me, Rereading(connect), Raised(NoDaemon), cfg);
    }
  }

  /** An iteration, case by case of the decision made under the lock. */
  lemma IterationCases(file: Option<Record>, host: Host, me: int, cfg: Config, o: Observation)
    requires me in host.alive && Plausible(o)
    ensures var s, r := Alone(file, host, me, Observing, cfg), Read(file);
            Iteration(s, me, o) ==
            match Decide(r, me, host, cfg, o.existing, o.now)
            case Reset => Alone(Some(DEFAULT), host, me, Observing, cfg)
            case Wait => Alone(file, host, me, Observing, cfg)
            case Raise(code) => Alone(file, host, me, Raised(code), cfg)
            case Connect(c) =>
              if o.reachable then Alone(file, host, me, Connected(c, r, o.existing), cfg)
              else (match AfterFailedPing(r, host, c)
                    case Again => Alone(file, host, me, Observing, cfg)
                    case TryReset => Alone(AfterRefresh(file, host, c), host, me, Observing, cfg)
                    case GiveUp => Alone(file, host, me, Raised(NoDaemon), cfg))
            case Create(leader) =>
              if o.launch.None? then Alone(Some(FailedRecord(leader)), host, me, Raised(StartFailed), cfg)
              else Alone(Some(ReadyRecord(leader, o.launch.value.0, o.launch.value.1)), host, me,
                         Owner(o.launch.value.0, o.launch.value.1), cfg)
  {
    AfterElect(file, host, me, cfg, o);
    match Decide(Read(file), me, host, cfg, o.existing, o.now)
    case Reset => SetAlone(Some(DEFAULT), host, me, Sleeping, Observing, cfg);
    case Wait => SetAlone(file, host, me, Sleeping, Observing, cfg);
    case Raise(_) =>
    case Connect(c) => ContactCase(file, host, me, cfg, c, Read(file), o);
    case Create(leader) => LaunchCase(Some(leader), host, me, cfg, leader, o);
  }

  // ----- the loop is an execution of the transition system

  /** Some steps of process `p` alone lead from `s` to `t`. */
  ghost predicate Reaches(s: State, p: int, t: State) {
    exists es: seq<Event> :: IsRun(s, es) && Final(s, es) == t
                             && forall i | 0 <= i < |es| :: IsElectionStep(es[i]) && es[i].p == p
  }

  lemma ReachesStep(s: State, p: int, t: State, e: Event)
    requires Reaches(s, p, t) && IsElectionStep(e) && e.p == p && Enabled(t, e)
    ensures Reaches(s, p, Apply(t, e))
  {
    var es: seq<Event> :| IsRun(s, es) && Final(s, es) == t
              && forall i | 0 <= i < |es| :: IsElectionStep(es[i]) && es[i].p == p;
    FinalOne(t, e);
    FinalAppend(s, es, [e]);
    RunAppend(s, es, e);
    assert IsRun(s, es + [e]);
  }

  lemma {:induction false} RunAppend(s: State, es: seq<Event>, e: Event)
    requires IsRun(s, es) && IsElectionStep(e) && Enabled(Final(s, es), e)
    ensures IsRun(s, es + [e])
    decreases |es|
  {
    if es == [] {
      assert es + [e] == [e] && [e][1..] == [];
    } else {
      RunAppend(Apply(s, es[0]), es[1..], e);
      assert (es + [e])[0] == es[0] && (es + [e])[1..] == es[1..] + [e];
    }
  }

  lemma ReachesSelf(s: State, p: int)
    ensures Reaches(s, p, s)
  {
    assert IsRun(s, []) && Final(s, []) == s;
  }

  lemma ContactReaches(s0: State, s: State, p: int, o: Observation)
    requires p in s.procs && p in s.host.alive && s.procs[p].pc.Pinging? && Reaches(s0, p, s)
    ensures Reaches(s0, p, Contact(s, p, o))
  {
    if o.reachable {
      ReachesStep(s0, p, s, Ping(p, true));
    } else {
      var s1 := Apply(s, Ping(p, false));
      var s2 := Apply(s1, Reread(p));
      ReachesStep(s0, p, s, Ping(p, false));
      ReachesStep(s0, p, s1, Reread(p));
      if s2.procs[p].pc.Sleeping? {
        ReachesStep(s0, p, s2, Wake(p));
      } else if s2.procs[p].pc.Refreshing? {
        ReachesStep(s0, p, s2, Refresh(p));
        ReachesStep(s0, p, Apply(s2, Refresh(p)), Wake(p));
      }
    }
  }

  lemma ElectReaches(s0: State, s: State, p: int, o: Observation)
    requires AtLoopTop(s, p) && Reaches(s0, p, s)
    ensures var s2 := Apply(Apply(s, Observe(p, o.existing)), Elect(p, o.now));
            Reaches(s0, p, s2) && p in s2.procs && s2.host == s.host
  {
    ReachesStep(s0, p, s, Observe(p, o.existing));
    ReachesStep(s0, p, Apply(s, Observe(p, o.existing)), Elect(p, o.now));
  }

  lemma UpToLaunchReaches(s0: State, s: State, p: int, o: Observation)
    requires AtLoopTop(s, p) && Reaches(s0, p, s)
    ensures Reaches(s0, p, UpToLaunch(s, p, o))
  {
    var s2 := Apply(Apply(s, Observe(p, o.existing)), Elect(p, o.now));
    ElectReaches(s0, s, p, o);
    if s2.procs[p].pc.Sleeping? {
      ReachesStep(s0, p, s2, Wake(p));
    } else if s2.procs[p].pc.Pinging? {
      ContactReaches(s0, s2, p, o);
    }
  }

  lemma LaunchReaches(s0: State, s: State, p: int, o: Observation)
    requires p in s.procs && p in s.host.alive && s.procs[p].pc.Launching? && Plausible(o) && Reaches(s0, p, s)
    ensures var done := if o.launch.Some? then LaunchOk(p, o.launch.value.0, o.launch.value.1) else LaunchError(p);
            Reaches(s0, p, Apply(Apply(s, done), RecordOutcome(p)))
  {
    var done := if o.launch.Some? then LaunchOk(p, o.launch.value.0, o.launch.value.1) else LaunchError(p);
    ReachesStep(s0, p, s, done);
    ReachesStep(s0, p, Apply(s, done), RecordOutcome(p));
  }

  lemma IterationReaches(s0: State, s: State, p: int, o: Observation)
    requires AtLoopTop(s, p) && Plausible(o) && Reaches(s0, p, s)
    ensures Reaches(s0, p, Iteration(s, p, o))
  {
    UpToLaunchReaches(s0, s, p, o);
    var s' := UpToLaunch(s, p, o);
    if p in s'.procs && p in s'.host.alive && s'.procs[p].pc.Launching? {
      LaunchReaches(s0, s', p, o);
    }
  }

  /** Whatever a process observes, its loop is a run of the transition system made of
      its own steps, so everything proved about runs holds of it. */
  lemma {:induction false} LoopIsARun(s0: State, s: State, p: int, script: seq<Observation>)
    requires Reaches(s0, p, s) && forall i | 0 <= i < |script| :: Plausible(script[i])
    ensures Reaches(s0, p, Loop(s, p, script))
    decreases |script|
  {
    if script != [] && AtLoopTop(s, p) {
      IterationReaches(s0, s, p, script[0]);
      LoopIsARun(s0, Iteration(s, p, script[0]), p, script[1..]);
    }
  }

  /** The same from before the call, so that the loop starts in an initial state. */
  lemma CallReaches(file: Option<Record>, host: Host, me: int, cfg: Config, script: seq<Observation>)
    requires me in host.alive && forall i | 0 <= i < |script| :: Plausible(script[i])
    ensures Reaches(Alone(file, host, me, Idle, cfg), me, Loop(Alone(file, host, me, Observing, cfg), me, script))
  {
    var s0 := Alone(file, host, me, Idle, cfg);
    ReachesSelf(s0, me);
    ReachesStep(s0, me, s0, Begin(me, cfg));
    assert Apply(s0, Begin(me, cfg)) == Alone(file, host, me, Observing, cfg);
    LoopIsARun(s0, Apply(s0, Begin(me, cfg)), me, script);
  }
}
