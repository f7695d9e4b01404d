/** Reconciling the stored records of one named session with the processes that
    really run (tensorcast/runtime.py). The set of processes, their identity and
    the reachable addresses are a fixed `World`. */
module Reconcile {
  import opened Common

  datatype Fingerprint = Fingerprint(hostId: string, bootId: string)

  /** The daemon entry of the runtime state file; pid 0 stands for no pid. */
  datatype Daemon = Daemon(sessionId: string, pid: int, address: Option<string>, fp: Option<Fingerprint>)

  /** A recorded process; `cmd0` is the first word of its command, if recorded. */
  datatype Record = Record(pid: int, cmd0: Option<string>)

  datatype World = World(alive: set<int>, fp: Fingerprint, reachable: set<string>, matching: set<(int, string)>) {
    predicate Alive(pid: int) { pid > 0 && pid in alive }
  }

  datatype Store = Store(daemon: Option<Daemon>, records: seq<Record>, meta: bool, current: Option<string>)

  predicate Owns(s: Store, session: string) {
    s.daemon.Some? && s.daemon.value.sessionId == session
  }

  function FirstPositive(rs: seq<Record>): Option<int> {
    if rs == [] then None else if rs[0].pid > 0 then Some(rs[0].pid) else FirstPositive(rs[1..])
  }

  function FirstCommand(rs: seq<Record>, pid: int): Option<string> {
    if rs == [] then None else if rs[0].pid == pid then rs[0].cmd0 else FirstCommand(rs[1..], pid)
  }

  /** The process the session is taken to be: the daemon entry's, or else the first recorded one. */
  function ChosenPid(s: Store, session: string): Option<int> {
    if Owns(s, session) && s.daemon.value.pid != 0 then Some(s.daemon.value.pid) else FirstPositive(s.records)
  }

  predicate FingerprintMismatch(s: Store, session: string, w: World) {
    Owns(s, session) && s.daemon.value.fp.Some? && (ChosenPid(s, session).None? || s.daemon.value.fp.value != w.fp)
  }

  predicate CommandMismatch(s: Store, session: string, w: World) {
    var pid := ChosenPid(s, session);
    pid.Some? && Truthy(FirstCommand(s.records, pid.value))
    && (pid.value, FirstCommand(s.records, pid.value).value) !in w.matching
  }

  predicate Healthy(s: Store, session: string, w: World) {
    Owns(s, session) && Truthy(s.daemon.value.address) && s.daemon.value.address.value in w.reachable
  }

  predicate Stale(s: Store, session: string, w: World) {
    var pid := ChosenPid(s, session);
    && !Healthy(s, session, w)
    && (pid.None? || !w.Alive(pid.value) || FingerprintMismatch(s, session, w) || CommandMismatch(s, session, w))
  }

  function Without(rs: seq<Record>, pid: int): seq<Record> {
    if rs == [] then []
    else (if rs[0].pid == pid then [] else [rs[0]]) + Without(rs[1..], pid)
  }

  method KeepOthers(rs: seq<Record>, pid: int) returns (kept: seq<Record>)
    ensures kept == Without(rs, pid)
  {
    kept := [];
    for i := 0 to |rs|
      invariant kept + Without(rs[i..], pid) == Without(rs, pid)
    {
      ghost var rest := Without(rs[i + 1..], pid);
      assert rs[i..][1..] == rs[i + 1..];
      if rs[i].pid != pid {
        assert kept + ([rs[i]] + rest) == (kept + [rs[i]]) + rest;
        kept := kept + [rs[i]];
      }
    }
  }

  /** `_prune_stale_session`. A missing or zero pid removes every process record. */
  function Prune(s: Store, session: string, pid: Option<int>): Store {
    Store(
      if Owns(s, session) && (pid.None? || s.daemon.value.pid == pid.value) then None else s.daemon,
      if pid.Some? && pid.value != 0 then Without(s.records, pid.value) else [],
      false,
      if s.current == Some(session) then None else s.current)
  }

  function Reconciled(s: Store, session: string, w: World): Store {
    if Stale(s, session, w) then Prune(s, session, ChosenPid(s, session)) else s
  }

  class SessionStore {
    var daemon: Option<Daemon>
    var records: seq<Record>
    var meta: bool
    var current: Option<string>

    ghost function Snap(): Store
      reads this
    {
      Store(daemon, records, meta, current)
    }

    method PruneStaleSession(session: string, pid: Option<int>)
      modifies this
      ensures Snap() == old(Prune(Snap(), session, pid))
    {
      var kept: seq<Record> := [];
      if pid.Some? && pid.value != 0 {
        kept := KeepOthers(records, pid.value);
      }
      records := kept;
      meta := false;
      if daemon.Some? && daemon.value.sessionId == session && (pid.None? || daemon.value.pid == pid.value) {
        daemon := None;
      }
      if current == Some(session) {
        current := None;
      }
    }

    /** `reconcile` for a named session: true when the session is kept. */
    method Reconcile(session: string, w: World) returns (found: bool)
      modifies this
      ensures Snap() == old(Reconciled(Snap(), session, w))
      ensures found <==> Answers(old(Snap()), session, w) || HasTrusted(old(Snap()), session, w)
    {
      StaleIff(Snap(), session, w);
      var pid: Option<int> := None;
      var address: Option<string> := None;
      var fp: Option<Fingerprint> := None;
      if daemon.Some? && daemon.value.sessionId == session {
        if daemon.value.pid != 0 {
          pid := Some(daemon.value.pid);
        }
        address := daemon.value.address;
        fp := daemon.value.fp;
      }
      if pid.None? {
        pid := FindPositive();
      }
      assert pid == ChosenPid(Snap(), session);
      var expected: Option<string> := None;
      if pid.Some? {
        expected := FindCommand(pid.value);
      }
      var mismatch := fp.Some? && (pid.None? || fp.value != w.fp);
      var alive := pid.Some? && w.Alive(pid.value);
      if Truthy(address) && address.value in w.reachable {
        return true;
      }
      if !alive || mismatch || pid.None? {
        PruneStaleSession(session, pid);
        return false;
      }
      if Truthy(expected) && (pid.value, expected.value) !in w.matching {
        PruneStaleSession(session, pid);
        return false;
      }
      found := true;
    }

    method FindPositive() returns (pid: Option<int>)
      ensures pid == FirstPositive(records)
    {
      pid := None;
      for i := 0 to |records|
        invariant pid.None?
        invariant FirstPositive(records) == FirstPositive(records[i..])
      {
        assert records[i..][1..] == records[i + 1..];
        if records[i].pid > 0 {
          return Some(records[i].pid);
        }
      }
    }

    method FindCommand(pid: int) returns (cmd: Option<string>)
      ensures cmd == FirstCommand(records, pid)
    {
      cmd := None;
      for i := 0 to |records|
        invariant cmd.None?
        invariant FirstCommand(records, pid) == FirstCommand(records[i..], pid)
      {
        assert records[i..][1..] == records[i + 1..];
        if records[i].pid == pid {
          return records[i].cmd0;
        }
      }
    }
  }

  // ----- when a session is kept

  /** The session's recorded address answers. */
  predicate Answers(s: Store, session: string, w: World) {
    && s.daemon.Some? && s.daemon.value.sessionId == session
    && s.daemon.value.address.Some? && s.daemon.value.address.value != "" && s.daemon.value.address.value in w.reachable
  }

  predicate EntryHasPid(s: Store, session: string) {
    s.daemon.Some? && s.daemon.value.sessionId == session && s.daemon.value.pid != 0
  }

  ghost predicate FirstRunnable(rs: seq<Record>, i: nat) {
    i < |rs| && rs[i].pid > 0 && forall j | 0 <= j < i :: rs[j].pid <= 0
  }

  ghost predicate FirstOf(rs: seq<Record>, i: nat, pid: int) {
    i < |rs| && rs[i].pid == pid && forall j | 0 <= j < i :: rs[j].pid != pid
  }

  /** The process that stands for the session: that of the daemon entry, or else of the
      first record with a positive pid. */
  ghost predicate Represents(s: Store, session: string, pid: int) {
    if EntryHasPid(s, session) then pid == s.daemon.value.pid
    else exists i: nat :: FirstRunnable(s.records, i) && s.records[i].pid == pid
  }

  predicate SameMachine(s: Store, session: string, w: World) {
    s.daemon.Some? && s.daemon.value.sessionId == session ==> s.daemon.value.fp in {None, Some(w.fp)}
  }

  /** The process runs what its first record says, if that says anything. */
  ghost predicate RunsCommand(rs: seq<Record>, w: World, pid: int) {
    && pid > 0 && pid in w.alive
    && forall i: nat | FirstOf(rs, i, pid) && rs[i].cmd0.Some? && rs[i].cmd0.value != "" ::
         (pid, rs[i].cmd0.value) in w.matching
  }

  ghost predicate HasTrusted(s: Store, session: string, w: World) {
    exists pid :: Represents(s, session, pid) && SameMachine(s, session, w) && RunsCommand(s.records, w, pid)
  }

  lemma {:induction false} FirstPositiveAt(rs: seq<Record>) returns (i: nat)
    ensures FirstPositive(rs).Some? ==> FirstRunnable(rs, i) && rs[i].pid == FirstPositive(rs).value
    ensures FirstPositive(rs).None? ==> forall r | r in rs :: r.pid <= 0
  {
    i := 0;
    if rs != [] && rs[0].pid <= 0 {
      var k := FirstPositiveAt(rs[1..]);
      i := k + 1;
    }
  }

  lemma {:induction false} FirstCommandAt(rs: seq<Record>, pid: int, i: nat)
    requires FirstOf(rs, i, pid)
    ensures FirstCommand(rs, pid) == rs[i].cmd0
  {
    if i > 0 {
      assert rs[0].pid != pid;
      assert FirstOf(rs[1..], i - 1, pid);
      FirstCommandAt(rs[1..], pid, i - 1);
    }
  }

  lemma {:induction false} NoCommand(rs: seq<Record>, pid: int) returns (i: nat)
    ensures FirstCommand(rs, pid).Some? ==> FirstOf(rs, i, pid)
  {
    i := 0;
    if rs != [] && rs[0].pid != pid {
      var k := NoCommand(rs[1..], pid);
      i := k + 1;
    }
  }

  lemma RepresentsIff(s: Store, session: string, pid: int)
    ensures Represents(s, session, pid) <==> ChosenPid(s, session) == Some(pid)
  {
    var k := FirstPositiveAt(s.records);
    if !EntryHasPid(s, session) {
      if i: nat :| FirstRunnable(s.records, i) && s.records[i].pid == pid {
        assert s.records[i] in s.records;
        assert FirstPositive(s.records).Some?;
        assert i == k;
      }
    }
  }

  lemma RunsCommandIff(rs: seq<Record>, w: World, pid: int)
    ensures RunsCommand(rs, w, pid) <==>
              w.Alive(pid) && (Truthy(FirstCommand(rs, pid)) ==> (pid, FirstCommand(rs, pid).value) in w.matching)
  {
    var k := NoCommand(rs, pid);
    if FirstCommand(rs, pid).Some? { FirstCommandAt(rs, pid, k); }
    forall i: nat | FirstOf(rs, i, pid) ensures FirstCommand(rs, pid) == rs[i].cmd0 { FirstCommandAt(rs, pid, i); }
  }

  /** A session is stale exactly when its address does not answer and no process that
      stands for it is on this machine and runs the recorded command. */
  lemma StaleIff(s: Store, session: string, w: World)
    ensures Stale(s, session, w) <==> !Answers(s, session, w) && !HasTrusted(s, session, w)
  {
    var pid := ChosenPid(s, session);
    forall p ensures Represents(s, session, p) <==> pid == Some(p) { RepresentsIff(s, session, p); }
    if pid.Some? { RunsCommandIff(s.records, w, pid.value); }
  }

  /** What one call does to a session that is neither answering nor represented by a
      trusted process: its process's records go and all others stay, and so for the entry,
      the meta file and the pointer. Without any process everything goes. */
  lemma UntrustedIsPruned(s: Store, session: string, w: World)
    requires !Answers(s, session, w) && !HasTrusted(s, session, w)
    ensures var t := Reconciled(s, session, w);
            && !t.meta
            && t.current == (if s.current == Some(session) then None else s.current)
            && (forall pid | Represents(s, session, pid) ::
                  && (forall r :: r in t.records <==> r in s.records && r.pid != pid)
                  && t.daemon == if Owns(s, session) && s.daemon.value.pid == pid then None else s.daemon)
            && ((forall pid :: !Represents(s, session, pid)) ==>
                  t.records == [] && t.daemon == if Owns(s, session) then None else s.daemon)
  {
    StaleIff(s, session, w);
    var chosen := ChosenPid(s, session);
    FirstPositiveIsRecorded(s.records);
    forall pid ensures Represents(s, session, pid) <==> chosen == Some(pid) { RepresentsIff(s, session, pid); }
    if chosen.Some? { WithoutMembers(s.records, chosen.value); }
  }

  lemma TrustedIsKept(s: Store, session: string, w: World)
    requires Answers(s, session, w) || HasTrusted(s, session, w)
    ensures Reconciled(s, session, w) == s
  {
    StaleIff(s, session, w);
  }

  // ----- what is removed

  lemma {:induction false} WithoutMembers(rs: seq<Record>, pid: int)
    ensures forall r :: r in Without(rs, pid) <==> r in rs && r.pid != pid
    ensures |Without(rs, pid)| <= |rs|
    ensures (exists r :: r in rs && r.pid == pid) <==> |Without(rs, pid)| < |rs|
  {
    if rs != [] {
      WithoutMembers(rs[1..], pid);
      assert forall r :: r in rs <==> r == rs[0] || r in rs[1..];
      if rs[0].pid == pid { assert rs[0] in rs; }
    }
  }

  lemma {:induction false} FirstPositiveIsRecorded(rs: seq<Record>)
    ensures match FirstPositive(rs)
            case None => forall r | r in rs :: r.pid <= 0
            case Some(p) => p > 0 && exists r :: r in rs && r.pid == p
  {
    if rs != [] {
      FirstPositiveIsRecorded(rs[1..]);
      assert forall r :: r in rs <==> r == rs[0] || r in rs[1..];
      if rs[0].pid > 0 { assert rs[0] in rs; }
    }
  }

  /** Exactly which process records one call removes. */
  lemma RecordRemovedIff(s: Store, session: string, w: World, r: Record)
    requires r in s.records
    ensures r !in Reconciled(s, session, w).records <==>
              && !Answers(s, session, w) && !HasTrusted(s, session, w)
              && forall pid | Represents(s, session, pid) :: pid == r.pid
  {
    StaleIff(s, session, w);
    var chosen := ChosenPid(s, session);
    FirstPositiveIsRecorded(s.records);
    forall pid ensures Represents(s, session, pid) <==> chosen == Some(pid) { RepresentsIff(s, session, pid); }
    if chosen.Some? {
      WithoutMembers(s.records, chosen.value);
      assert Represents(s, session, chosen.value);
    }
  }

  /** A dead process that stands for a silent session leaves no record behind, nor an
      entry that names it. */
  lemma DeadProcessIsRemoved(s: Store, session: string, w: World, pid: int)
    requires !Answers(s, session, w) && Represents(s, session, pid) && pid !in w.alive
    ensures var t := Reconciled(s, session, w);
            && (forall r | r in t.records :: r.pid != pid)
            && (Owns(s, session) && s.daemon.value.pid == pid ==> t.daemon.None?)
  {
    forall p | Represents(s, session, p) ensures p == pid {
      RepresentsIff(s, session, p);
      RepresentsIff(s, session, pid);
    }
    UntrustedIsPruned(s, session, w);
  }

  /** Exactly when one call removes the session's daemon entry: a stale entry with a
      pid always, one without a pid only once no process is recorded. */
  lemma DaemonRemovedIff(s: Store, session: string, w: World)
    requires Owns(s, session)
    ensures Reconciled(s, session, w).daemon.None? <==>
              && !Answers(s, session, w) && !HasTrusted(s, session, w)
              && (s.daemon.value.pid != 0 || forall r | r in s.records :: r.pid <= 0)
  {
    StaleIff(s, session, w);
    FirstPositiveIsRecorded(s.records);
  }

  // ----- repeated calls settle

  function Times(s: Store, session: string, w: World, n: nat): Store {
    if n == 0 then s else Reconciled(Times(s, session, w, n - 1), session, w)
  }

  lemma {:induction false} CommandKept(rs: seq<Record>, pid: int, other: int)
    requires other != pid
    ensures FirstCommand(Without(rs, other), pid) == FirstCommand(rs, pid)
  {
    if rs != [] {
      CommandKept(rs[1..], pid, other);
      var rest := Without(rs[1..], other);
      if rs[0].pid == other {
        assert Without(rs, other) == rest;
      } else {
        assert Without(rs, other)[1..] == rest;
      }
    }
  }

  /** `r` belongs to a running process, the stored fingerprint, if any, is this
      machine's, and the first command recorded for the process, if any, matches. */
  ghost predicate LiveRecord(s: Store, session: string, w: World, r: Record) {
    r in s.records && SameMachine(s, session, w) && RunsCommand(s.records, w, r.pid)
  }

  lemma LiveRecordStep(s: Store, session: string, w: World, r: Record)
    requires LiveRecord(s, session, w, r)
    ensures LiveRecord(Reconciled(s, session, w), session, w, r)
  {
    RecordRemovedIff(s, session, w, r);
    FirstPositiveIsRecorded(s.records);
    StaleIff(s, session, w);
    var pid := ChosenPid(s, session);
    if pid.Some? {
      RepresentsIff(s, session, pid.value);
      if pid.value != r.pid { CommandKept(s.records, r.pid, pid.value); }
    }
    RunsCommandIff(s.records, w, r.pid);
    RunsCommandIff(Reconciled(s, session, w).records, w, r.pid);
  }

  /** However often a session is reconciled, the record of such a process stays. */
  lemma {:induction false} LiveRecordIsKept(s: Store, session: string, w: World, r: Record, n: nat)
    requires LiveRecord(s, session, w, r)
    ensures LiveRecord(Times(s, session, w, n), session, w, r)
  {
    if n > 0 {
      LiveRecordIsKept(s, session, w, r, n - 1);
      LiveRecordStep(Times(s, session, w, n - 1), session, w, r);
    }
  }

  /** However often a session is reconciled, another session's daemon entry and
      pointer stay, and a session whose daemon answers is left as it is. */
  lemma {:induction false} OtherSessionsAreKept(s: Store, session: string, w: World, n: nat)
    ensures !Owns(s, session) ==> Times(s, session, w, n).daemon == s.daemon
    ensures s.current != Some(session) ==> Times(s, session, w, n).current == s.current
    ensures Healthy(s, session, w) ==> Times(s, session, w, n) == s
  {
    if n > 0 { OtherSessionsAreKept(s, session, w, n - 1); }
  }

  function Load(s: Store, session: string): nat {
    |s.records| + if Owns(s, session) then 1 else 0
  }

  /** What is left to remove. */
  function Remaining(s: Store, session: string): nat {
    if Load(s, session) > 0 then Load(s, session)
    else if s.meta || s.current == Some(session) then 1
    else 0
  }

  /** A call that changes anything leaves strictly less to remove. */
  lemma ChangeShrinks(s: Store, session: string, w: World)
    requires Reconciled(s, session, w) != s
    ensures Remaining(Reconciled(s, session, w), session) < Remaining(s, session)
  {
    var pid := ChosenPid(s, session);
    FirstPositiveIsRecorded(s.records);
    if pid.Some? { WithoutMembers(s.records, pid.value); }
  }

  lemma {:induction false} SettlesWithin(s: Store, session: string, w: World, n: nat)
    ensures var t := Times(s, session, w, n);
            Reconciled(t, session, w) == t || Remaining(t, session) + n <= Remaining(s, session)
  {
    if n > 0 {
      SettlesWithin(s, session, w, n - 1);
      var t := Times(s, session, w, n - 1);
      if Reconciled(t, session, w) != t { ChangeShrinks(t, session, w); }
    }
  }

  /** Against an unchanging world, one call more than there are records is enough to
      reach a state that further calls leave alone. */
  lemma ReconcileSettles(s: Store, session: string, w: World, n: nat)
    requires n >= |s.records| + 1
    ensures Times(s, session, w, n) == Times(s, session, w, |s.records| + 1)
    decreases n
  {
    var k := |s.records| + 1;
    if n > k {
      ReconcileSettles(s, session, w, n - 1);
      SettlesWithin(s, session, w, k);
      var t := Times(s, session, w, k);
      if Reconciled(t, session, w) != t {
        assert Remaining(t, session) == 0;
        ChangeShrinks(t, session, w);
      }
    }
  }

  // ----- what nothing stands for any more is cleared completely

  /** No process keeps the session: its entry's is not trusted, and no other recorded
      process runs its command. An entry without a pid from another machine is enough. */
  ghost predicate Hopeless(s: Store, session: string, w: World) {
    && !Answers(s, session, w)
    && (|| (Owns(s, session) && s.daemon.value.pid == 0 && !SameMachine(s, session, w))
        || (&& (EntryHasPid(s, session) ==>
                  !(SameMachine(s, session, w) && RunsCommand(s.records, w, s.daemon.value.pid)))
            && forall r | r in s.records && !(EntryHasPid(s, session) && s.daemon.value.pid == r.pid) ::
                 !RunsCommand(s.records, w, r.pid)))
  }

  lemma HopelessIsStale(s: Store, session: string, w: World)
    requires Hopeless(s, session, w)
    ensures Stale(s, session, w)
  {
    forall pid | Represents(s, session, pid)
      ensures EntryHasPid(s, session) || exists r :: r in s.records && r.pid == pid
    {
      if !EntryHasPid(s, session) {
        var i: nat :| FirstRunnable(s.records, i) && s.records[i].pid == pid;
        assert s.records[i] in s.records;
      }
    }
    StaleIff(s, session, w);
  }

  lemma HopelessStep(s: Store, session: string, w: World)
    requires Hopeless(s, session, w)
    ensures Hopeless(Reconciled(s, session, w), session, w)
  {
    HopelessIsStale(s, session, w);
    var t, chosen := Reconciled(s, session, w), ChosenPid(s, session);
    if chosen.Some? {
      WithoutMembers(s.records, chosen.value);
      forall r | r in t.records ensures RunsCommand(t.records, w, r.pid) <==> RunsCommand(s.records, w, r.pid) {
        CommandKept(s.records, r.pid, chosen.value);
        RunsCommandIff(s.records, w, r.pid);
        RunsCommandIff(t.records, w, r.pid);
      }
    }
  }

  lemma {:induction false} HopelessHolds(s: Store, session: string, w: World, n: nat)
    requires Hopeless(s, session, w)
    ensures Hopeless(Times(s, session, w, n), session, w)
  {
    if n > 0 {
      HopelessHolds(s, session, w, n - 1);
      HopelessStep(Times(s, session, w, n - 1), session, w);
    }
  }

  predicate Cleared(s: Store, session: string) {
    s.records == [] && !s.meta && !Owns(s, session) && s.current != Some(session)
  }

  lemma SettledIsCleared(s: Store, session: string, w: World)
    requires Stale(s, session, w) && Reconciled(s, session, w) == s
    ensures Cleared(s, session)
  {
    var chosen := ChosenPid(s, session);
    FirstPositiveIsRecorded(s.records);
    if chosen.Some? { WithoutMembers(s.records, chosen.value); }
  }

  /** A session that no process keeps is cleared completely, its records, meta file, entry
      and pointer, by one call more than there are records. */
  lemma HopelessIsCleared(s: Store, session: string, w: World, n: nat)
    requires Hopeless(s, session, w) && n >= |s.records| + 1
    ensures Cleared(Times(s, session, w, n), session)
  {
    var t := Times(s, session, w, n);
    HopelessHolds(s, session, w, n);
    HopelessIsStale(t, session, w);
    ReconcileSettles(s, session, w, n);
    ReconcileSettles(s, session, w, n + 1);
    assert Times(s, session, w, n + 1) == Reconciled(t, session, w);
    SettledIsCleared(t, session, w);
  }

  lemma {:induction false} FixedStays(s: Store, session: string, w: World, n: nat)
    requires Reconciled(s, session, w) == s
    ensures Times(s, session, w, n) == s
  {
    if n > 0 { FixedStays(s, session, w, n - 1); }
  }

  lemma {:induction false} TimesShift(s: Store, session: string, w: World, n: nat)
    ensures Times(s, session, w, n + 1) == Times(Reconciled(s, session, w), session, w, n)
  {
    if n > 0 { TimesShift(s, session, w, n - 1); }
  }

  /** A running recorded process outlives an untrusted entry with another pid. */
  lemma SurvivesForeignEntry(s: Store, session: string, w: World, r: Record)
    requires !Answers(s, session, w) && EntryHasPid(s, session) && !SameMachine(s, session, w)
    requires r in s.records && r.pid != s.daemon.value.pid && RunsCommand(s.records, w, r.pid)
    ensures LiveRecord(Reconciled(s, session, w), session, w, r)
  {
    StaleIff(s, session, w);
    var pid := s.daemon.value.pid;
    WithoutMembers(s.records, pid);
    CommandKept(s.records, r.pid, pid);
    RunsCommandIff(s.records, w, r.pid);
    RunsCommandIff(Reconciled(s, session, w).records, w, r.pid);
  }

  lemma HopefulIsNotCleared(s: Store, session: string, w: World, n: nat)
    requires !Hopeless(s, session, w)
    ensures !Cleared(Times(s, session, w, n), session)
  {
    var trustedEntry := EntryHasPid(s, session) && SameMachine(s, session, w) && RunsCommand(s.records, w, s.daemon.value.pid);
    if Answers(s, session, w) || trustedEntry {
      if trustedEntry { assert Represents(s, session, s.daemon.value.pid); }
      TrustedIsKept(s, session, w);
      FixedStays(s, session, w, n);
    } else {
      var r :| r in s.records && !(EntryHasPid(s, session) && s.daemon.value.pid == r.pid) && RunsCommand(s.records, w, r.pid);
      if SameMachine(s, session, w) {
        LiveRecordIsKept(s, session, w, r, n);
      } else if n > 0 {
        SurvivesForeignEntry(s, session, w, r);
        TimesShift(s, session, w, n - 1);
        LiveRecordIsKept(Reconciled(s, session, w), session, w, r, n - 1);
      }
    }
  }

  /** Exactly when repeated calls clear a session. */
  lemma ClearedIff(s: Store, session: string, w: World, n: nat)
    requires n >= |s.records| + 1
    ensures Cleared(Times(s, session, w, n), session) <==> Hopeless(s, session, w)
  {
    if Hopeless(s, session, w) {
      HopelessIsCleared(s, session, w, n);
    } else {
      HopefulIsNotCleared(s, session, w, n);
    }
  }

  /** In particular when the address is silent and every recorded process is dead. */
  lemma DeadSessionIsCleared(s: Store, session: string, w: World)
    requires s.daemon.Some? && s.daemon.value.address.Some? ==> s.daemon.value.address.value !in w.reachable
    requires s.daemon.Some? ==> s.daemon.value.pid !in w.alive
    requires forall r | r in s.records :: r.pid !in w.alive
    ensures Cleared(Times(s, session, w, |s.records| + 1), session)
  {
    HopelessIsCleared(s, session, w, |s.records| + 1);
  }
}
