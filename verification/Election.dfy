/** Auto-init as a transition system: any number of processes run
    `_init_auto_mode` against one state file. Every unlocked observation, every
    locked section, every ping and every launch is a step of its own, processes
    crash at any point, and what they observe outside the lock is unconstrained. */
module Election {
  import opened Common
  import opened AutoState

  /** Where a process stands in `_init_auto_mode`. `Connected` and `Pinging`
      remember the record and the observation that the decision was based on. */
  datatype Pc =
    | Idle
    | Observing
    | Deciding(existing: Option<string>)
    | Pinging(connect: string, seen: Record, existing: Option<string>)
    | Rereading(connect: string)
    | Refreshing(connect: string)
    | Sleeping
    | Launching(leader: Record)
    | Launched(leader: Record, address: string, session: string)
    | LaunchFailed(leader: Record)
    | Owner(address: string, session: string)
    | Connected(connect: string, seen: Record, existing: Option<string>)
    | Raised(code: ErrorCode)

  datatype Process = Process(pc: Pc, cfg: Config)

  datatype State = State(file: Option<Record>, host: Host, procs: map<int, Process>)

  datatype Event =
    | Begin(p: int, cfg: Config)
    | Observe(p: int, existing: Option<string>)
    | Elect(p: int, now: real)
    | Ping(p: int, reachable: bool)
    | Reread(p: int)
    | Refresh(p: int)
    | Wake(p: int)
    | LaunchOk(p: int, address: string, session: string)
    | LaunchError(p: int)
    | LaunchInterrupted(p: int)
    | RecordOutcome(p: int)
    | Crash(pid: int)
    | Close(p: int)
    | CloseElsewhere(session: string, address: string)
    | Promote(session: string, address: string)

  /** The events that are steps of `_init_auto_mode` itself. */
  predicate IsElectionStep(e: Event) {
    !e.Crash? && !e.Close? && !e.CloseElsewhere? && !e.Promote?
  }

  /** Between claiming leadership and recording the outcome of the launch. */
  predicate Leads(pc: Pc) {
    pc.Launching? || pc.Launched? || pc.LaunchFailed?
  }

  predicate AtPc(s: State, e: Event)
    requires IsElectionStep(e) && e.p in s.procs
  {
    var pc := s.procs[e.p].pc;
    match e
    case Begin(_, _) => pc.Idle? || pc.Raised? || pc.Connected?
    case Observe(_, _) => pc.Observing?
    case Elect(_, _) => pc.Deciding?
    case Ping(_, _) => pc.Pinging?
    case Reread(_) => pc.Rereading?
    case Refresh(_) => pc.Refreshing?
    case Wake(_) => pc.Sleeping?
    case LaunchOk(_, address, _) => pc.Launching? && address != ""
    case LaunchError(_) => pc.Launching?
    case LaunchInterrupted(_) => pc.Launching?
    case RecordOutcome(_) => pc.Launched? || pc.LaunchFailed?
  }

  predicate Enabled(s: State, e: Event) {
    if IsElectionStep(e) then
      e.p in s.procs && e.p in s.host.alive && AtPc(s, e)
    else match e
      case Close(p) => p in s.procs && p in s.host.alive && s.procs[p].pc.Owner?
      case CloseElsewhere(session, address) => session != "" && address != ""
      case _ => true
  }

  /** A closing context never carries the explicit session id of a launch in
      progress. Leaders without an explicit id meet this by themselves, because
      their STARTING record carries the empty id. */
  predicate NoSharedSession(s: State, e: Event) {
    var closing :=
      if e.CloseElsewhere? then e.session
      else if e.Close? && e.p in s.procs && s.procs[e.p].pc.Owner? then s.procs[e.p].pc.session
      else "";
    (closing != "" && s.file.Some? && s.file.value.status == Starting && HasLiveOwner(s.host, s.file.value)) ==>
      s.file.value.sessionId != Some(closing)
  }

  function SetPc(s: State, p: int, pc: Pc): State
    requires p in s.procs
  {
    s.(procs := s.procs[p := s.procs[p].(pc := pc)])
  }

  function PcAfterDecision(a: Action, seen: Record, existing: Option<string>): Pc {
    match a
    case Reset | Wait => Sleeping
    case Connect(address) => Pinging(address, seen, existing)
    case Create(leader) => Launching(leader)
    case Raise(code) => Raised(code)
  }

  function Apply(s: State, e: Event): State
    requires Enabled(s, e)
  {
    match e
    case Begin(p, cfg) => s.(procs := s.procs[p := Process(Observing, cfg)])
    case Observe(p, existing) => SetPc(s, p, Deciding(existing))
    case Elect(p, now) =>
      var seen := Read(s.file);
      var existing := s.procs[p].pc.existing;
      var a := Decide(seen, p, s.host, s.procs[p].cfg, existing, now);
      SetPc(s, p, PcAfterDecision(a, seen, existing)).(file := AfterDecide(s.file, a))
    case Ping(p, reachable) =>
      var pc := s.procs[p].pc;
      SetPc(s, p, if reachable then Connected(pc.connect, pc.seen, pc.existing) else Rereading(pc.connect))
    case Reread(p) =>
      var connect := s.procs[p].pc.connect;
      SetPc(s, p,
            match AfterFailedPing(Read(s.file), s.host, connect)
            case Again => Sleeping
            case TryReset => Refreshing(connect)
            case GiveUp => Raised(NoDaemon))
    case Refresh(p) =>
      SetPc(s, p, Sleeping).(file := AfterRefresh(s.file, s.host, s.procs[p].pc.connect))
    case Wake(p) => SetPc(s, p, Observing)
    case LaunchOk(p, address, session) => SetPc(s, p, Launched(s.procs[p].pc.leader, address, session))
    case LaunchError(p) => SetPc(s, p, LaunchFailed(s.procs[p].pc.leader))
    // An exception that the handler does not catch, such as SystemExit: nothing is recorded.
    case LaunchInterrupted(p) => SetPc(s, p, Raised(Interrupted))
    case RecordOutcome(p) =>
      var pc := s.procs[p].pc;
      if pc.Launched? then
        SetPc(s, p, Owner(pc.address, pc.session)).(file := Some(ReadyRecord(pc.leader, pc.address, pc.session)))
      else
        SetPc(s, p, Raised(StartFailed)).(file := Some(FailedRecord(pc.leader)))
    case Crash(pid) => s.(host := s.host.(alive := s.host.alive - {pid}))
    case Close(p) =>
      var pc := s.procs[p].pc;
      SetPc(s, p, Idle).(file := if pc.session == "" then s.file
                                 else AfterClear(s.file, Some(pc.session), Some(pc.address)))
    case CloseElsewhere(session, address) => s.(file := AfterClear(s.file, Some(session), Some(address)))
    case Promote(session, address) => s.(file := AfterPromote(s.file, OrNone(session), address))
  }

  /** Some machine, some file left behind by earlier runs, and processes that
      have not called init yet. */
  ghost predicate Initial(s: State) {
    forall p | p in s.procs :: p > 0 && s.procs[p].pc.Idle?
  }

  /** `es` can be executed from `s`, whatever the closing contexts are. */
  ghost predicate Feasible(s: State, es: seq<Event>)
    decreases |es|
  {
    es == [] || (Enabled(s, es[0]) && Feasible(Apply(s, es[0]), es[1..]))
  }

  /** A feasible execution in which no closing context shares a launching session id. */
  ghost predicate IsRun(s: State, es: seq<Event>): (run: bool)
    ensures run ==> Feasible(s, es)
    decreases |es|
  {
    es == [] || (Enabled(s, es[0]) && NoSharedSession(s, es[0]) && IsRun(Apply(s, es[0]), es[1..]))
  }

  ghost function Final(s: State, es: seq<Event>): State
    requires Feasible(s, es)
    decreases |es|
  {
    if es == [] then s else Final(Apply(s, es[0]), es[1..])
  }

  lemma {:induction false} FinalAppend(s: State, a: seq<Event>, b: seq<Event>)
    requires Feasible(s, a) && Feasible(Final(s, a), b)
    ensures Feasible(s, a + b) && Final(s, a + b) == Final(Final(s, a), b)
    decreases |a|
  {
    if a == [] {
      assert a + b == b;
    } else {
      FinalAppend(Apply(s, a[0]), a[1..], b);
      assert (a + b)[0] == a[0] && (a + b)[1..] == a[1..] + b;
    }
  }

  /** An execution of one event. */
  lemma FinalOne(s: State, e: Event)
    requires Enabled(s, e)
    ensures Feasible(s, [e]) && Final(s, [e]) == Apply(s, e)
  {
    assert [e][1..] == [];
  }
}
