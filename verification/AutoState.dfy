/** The shared auto-init record, and what one process does while it holds the
    file lock (tensorcast/startup.py). */
module AutoState {
  import opened Common
  import opened Text

  datatype Status = Empty | Starting | Listening | Ready | Failed

  datatype Fingerprint = Fingerprint(hostId: string, bootId: string)

  /** The record kept in daemon_auto_state.json. An absent or ill-typed text
      field is None; an absent owner pid or start time is 0. */
  datatype Record = Record(
    status: Status,
    epoch: int,
    ownerPid: int,
    ownerFp: Option<Fingerprint>,
    configHash: Option<string>,
    sessionId: Option<string>,
    address: Option<string>,
    startedAt: real)

  const DEFAULT := Record(Empty, 0, 0, None, None, None, None, 0.0)

  /** The machine the processes share: the running pids and its fingerprint. */
  datatype Host = Host(fp: Fingerprint, alive: set<int>)

  /** The arguments of one `init(mode="auto")` call that the election looks at. */
  datatype Config = Config(expectedHash: string, sessionId: Option<string>, timeout: real)

  datatype ErrorCode = ConfigMismatch | StartFailed | ListeningInvalid | StartTimeout | NoDaemon | Interrupted

  datatype Action =
    | Reset
    | Connect(address: string)
    | Wait
    | Create(leader: Record)
    | Raise(code: ErrorCode)

  function Read(file: Option<Record>): Record {
    match file
    case None => DEFAULT
    case Some(r) => r.(epoch := Max(0, r.epoch))
  }

  predicate OwnerAlive(host: Host, pid: int, fp: Option<Fingerprint>) {
    pid > 0 && pid in host.alive && (fp.Some? ==> fp.value == host.fp)
  }

  predicate HasLiveOwner(host: Host, r: Record) {
    OwnerAlive(host, r.ownerPid, r.ownerFp)
  }

  function StrippedAddress(r: Record): string {
    Strip(OrEmpty(r.address))
  }

  function StrippedHash(r: Record): string {
    Strip(OrEmpty(r.configHash))
  }

  /** A recorded configuration hash that contradicts the caller's. */
  predicate HashDiffers(r: Record, cfg: Config) {
    StrippedHash(r) != "" && StrippedHash(r) != cfg.expectedHash
  }

  predicate HashEnforced(r: Record, existing: Option<string>) {
    || r.status in {Starting, Listening}
    || (r.status == Ready && Truthy(existing) && StrippedAddress(r) != ""
        && StrippedAddress(r) == existing.value)
  }

  function Claim(r: Record, me: int, host: Host, cfg: Config, now: real): Record {
    Record(Starting, r.epoch + 1, me, Some(host.fp), Some(cfg.expectedHash),
           Some(OrEmpty(cfg.sessionId)), Some(""), now)
  }

  function Elapsed(r: Record, now: real): real {
    if r.startedAt > 0.0 then MaxReal(0.0, now - r.startedAt) else 0.0
  }

  /** What the first locked section decides, from the record it reads and the
      daemon address `existing` observed before the lock was taken. */
  function Decide(r: Record, me: int, host: Host, cfg: Config, existing: Option<string>, now: real): Action {
    if HashEnforced(r, existing) && HashDiffers(r, cfg) then
      if HasLiveOwner(host, r) then Raise(ConfigMismatch) else Reset
    else match r.status
      case Failed =>
        if Truthy(existing) then Connect(existing.value)
        else if r.ownerPid > 0 && !HasLiveOwner(host, r) then Reset
        else Raise(StartFailed)
      case Listening | Ready =>
        if r.ownerPid > 0 && !HasLiveOwner(host, r) then Reset
        else if Truthy(r.address) then Connect(r.address.value)
        else if Truthy(existing) then Connect(existing.value)
        else Raise(ListeningInvalid)
      case Starting =>
        if !HasLiveOwner(host, r) then Reset
        else if Elapsed(r, now) > cfg.timeout then Raise(StartTimeout)
        else if Truthy(existing) then Connect(existing.value)
        else Wait
      case Empty =>
        if Truthy(existing) then Connect(existing.value)
        else Create(Claim(r, me, host, cfg, now))
  }

  function AfterDecide(file: Option<Record>, a: Action): Option<Record> {
    match a
    case Reset => Some(DEFAULT)
    case Create(leader) => Some(leader)
    case _ => file
  }

  datatype Retry = Again | TryReset | GiveUp

  /** What follows a failed ping of `connect`, from the record read afterwards. */
  function AfterFailedPing(r: Record, host: Host, connect: string): Retry {
    if r.status == Starting then Again
    else if && r.status in {Listening, Ready, Failed}
            && StrippedAddress(r) != ""
            && StrippedAddress(r) == connect
            && !HasLiveOwner(host, r) then TryReset
    else GiveUp
  }

  predicate StaleAt(r: Record, host: Host, connect: string) {
    && r.status in {Listening, Ready, Failed}
    && StrippedAddress(r) == connect
    && !HasLiveOwner(host, r)
  }

  function AfterRefresh(file: Option<Record>, host: Host, connect: string): Option<Record> {
    if StaleAt(Read(file), host, connect) then Some(DEFAULT) else file
  }

  function ReadyRecord(leader: Record, address: string, session: string): Record {
    leader.(status := Ready, address := Some(address), sessionId := Some(session))
  }

  function FailedRecord(leader: Record): Record {
    leader.(status := Failed)
  }

  /** `_clear_auto_state_if_matches`: deletes on a session OR an address match. */
  function AfterClear(file: Option<Record>, session: Option<string>, address: Option<string>): Option<Record> {
    if !Truthy(session) && !Truthy(address) then file
    else if Read(file).sessionId != session && Read(file).address != address then file
    else None
  }

  function AfterPromote(file: Option<Record>, session: Option<string>, address: string): Option<Record> {
    var r := Read(file);
    if OrEmpty(r.sessionId) != OrEmpty(session) || OrEmpty(r.address) != address then file
    else if r.status != Listening then file
    else Some(r.(status := Ready))
  }

  /** The state file. Every method is the body of one `with file_lock(...)`
      block, so callers see it as one atomic step. */
  class AutoStateFile {
    var content: Option<Record>

    constructor ()
      ensures content == None
    {
      content := None;
    }

    method ReadLocked() returns (r: Record)
      ensures r == Read(content)
      ensures r.epoch >= 0
    {
      r := DEFAULT;
      if content.Some? {
        r := content.value;
        if r.epoch < 0 {
          r := r.(epoch := 0);
        }
      }
    }

    method WriteLocked(r: Record)
      modifies this
      ensures content == Some(r)
    {
      content := Some(r);
    }

    method ElectLocked(me: int, host: Host, cfg: Config, existing: Option<string>, now: real) returns (next: Action)
      modifies this
      ensures next == Decide(Read(old(content)), me, host, cfg, existing, now)
      ensures content == AfterDecide(old(content), next)
    {
      next := Wait;
      var state := ReadLocked();
      var address := Strip(OrEmpty(state.address));
      var hash := Strip(OrEmpty(state.configHash));
      var enforce := state.status == Starting || state.status == Listening;
      if state.status == Ready && Truthy(existing) && address != "" && address == existing.value {
        enforce := true;
      }
      if enforce && hash != "" && hash != cfg.expectedHash {
        if !OwnerAlive(host, state.ownerPid, state.ownerFp) {
          WriteLocked(DEFAULT);
          next := Reset;
        } else {
          return Raise(ConfigMismatch);
        }
      }
      if next == Reset {
      } else if state.status == Failed {
        if Truthy(existing) {
          next := Connect(existing.value);
        } else if state.ownerPid > 0 && !OwnerAlive(host, state.ownerPid, state.ownerFp) {
          WriteLocked(DEFAULT);
          next := Reset;
        } else {
          return Raise(StartFailed);
        }
      } else if state.status == Listening || state.status == Ready {
        if state.ownerPid > 0 && !OwnerAlive(host, state.ownerPid, state.ownerFp) {
          WriteLocked(DEFAULT);
          next := Reset;
        } else if Truthy(state.address) {
          next := Connect(state.address.value);
        } else if Truthy(existing) {
          next := Connect(existing.value);
        } else {
          return Raise(ListeningInvalid);
        }
      } else if state.status == Starting {
        if !OwnerAlive(host, state.ownerPid, state.ownerFp) {
          WriteLocked(DEFAULT);
          next := Reset;
        } else {
          var elapsed := 0.0;
          if state.startedAt > 0.0 {
            elapsed := MaxReal(0.0, now - state.startedAt);
          }
          if elapsed > cfg.timeout {
            return Raise(StartTimeout);
          }
          if Truthy(existing) {
            next := Connect(existing.value);
          } else {
            next := Wait;
          }
        }
      } else {
        if Truthy(existing) {
          next := Connect(existing.value);
        } else {
          var leader := Claim(state, me, host, cfg, now);
          WriteLocked(leader);
          next := Create(leader);
        }
      }
    }

    method RefreshLocked(host: Host, connect: string)
      modifies this
      ensures content == AfterRefresh(old(content), host, connect)
    {
      var refreshed := ReadLocked();
      if (refreshed.status == Listening || refreshed.status == Ready || refreshed.status == Failed) {
        if Strip(OrEmpty(refreshed.address)) == connect {
          if !OwnerAlive(host, refreshed.ownerPid, refreshed.ownerFp) {
            WriteLocked(DEFAULT);
          }
        }
      }
    }

    method ClearIfMatches(session: Option<string>, address: Option<string>)
      modifies this
      ensures content == AfterClear(old(content), session, address)
    {
      if !Truthy(session) && !Truthy(address) {
        return;
      }
      var state := ReadLocked();
      if state.sessionId != session && state.address != address {
        return;
      }
      content := None;
    }

    method PromoteReady(session: Option<string>, address: string)
      modifies this
      ensures content == AfterPromote(old(content), session, address)
    {
      var state := ReadLocked();
      if OrEmpty(state.sessionId) != OrEmpty(session) || OrEmpty(state.address) != address {
        return;
      }
      if state.status != Listening {
        return;
      }
      WriteLocked(state.(status := Ready));
    }
  }
}
