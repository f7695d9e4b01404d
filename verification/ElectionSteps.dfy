/** Exactly what each step of the election does, over every record and every
    observation, in terms of the fields of the record. */
module ElectionSteps {
  import opened Common
  import opened Text
  import opened AutoState
  import opened Election

  /** The owner named by the record runs on this machine since this boot. */
  predicate Runs(r: Record, host: Host) {
    r.ownerPid in host.alive && r.ownerPid > 0 && r.ownerFp in {None, Some(host.fp)}
  }

  predicate OtherHash(r: Record, cfg: Config) {
    r.configHash.Some? && Strip(r.configHash.value) !in {"", cfg.expectedHash}
  }

  /** The daemon that answered before the lock was taken is the recorded one. */
  predicate SawRecorded(r: Record, existing: Option<string>) {
    Truthy(existing) && r.address.Some? && Strip(r.address.value) == existing.value
  }

  /** The recorded hash counts and contradicts the caller's. */
  predicate Refused(r: Record, existing: Option<string>, cfg: Config) {
    OtherHash(r, cfg) && (r.status in {Starting, Listening} || (r.status == Ready && SawRecorded(r, existing)))
  }

  predicate Overdue(r: Record, cfg: Config, now: real) {
    cfg.timeout < 0.0 || (r.startedAt > 0.0 && now - r.startedAt > cfg.timeout)
  }

  lemma SameMeaning(r: Record, host: Host, existing: Option<string>, cfg: Config, now: real)
    ensures HasLiveOwner(host, r) <==> Runs(r, host)
    ensures HashDiffers(r, cfg) <==> OtherHash(r, cfg)
    ensures HashEnforced(r, existing) && HashDiffers(r, cfg) <==> Refused(r, existing, cfg)
    ensures Elapsed(r, now) > cfg.timeout <==> Overdue(r, cfg, now)
  {
    StripProps("");
  }

  /** A process claims the election exactly on an EMPTY record with no daemon observed;
      the claim carries the next epoch and its own identity, and is what is written. */
  lemma ElectClaimsIff(s: State, p: int, now: real)
    requires Enabled(s, Elect(p, now))
    ensures var s' := Apply(s, Elect(p, now));
            var r, cfg := Read(s.file), s.procs[p].cfg;
            && (s'.procs[p].pc.Launching? <==> r.status == Empty && !Truthy(s.procs[p].pc.existing))
            && (s'.procs[p].pc.Launching? ==>
                  && s'.file == Some(s'.procs[p].pc.leader)
                  && s'.file.value == Record(Starting, r.epoch + 1, p, Some(s.host.fp), Some(cfg.expectedHash),
                                             Some(OrEmpty(cfg.sessionId)), Some(""), now))
  {
    SameMeaning(Read(s.file), s.host, s.procs[p].pc.existing, s.procs[p].cfg, now);
  }

  /** Exactly when each error is raised; the record then stays as it was. */
  lemma ElectRaisesIff(s: State, p: int, now: real)
    requires Enabled(s, Elect(p, now))
    ensures var s' := Apply(s, Elect(p, now));
            var r, cfg, existing, pc := Read(s.file), s.procs[p].cfg, s.procs[p].pc.existing, s'.procs[p].pc;
            && (pc == Raised(ConfigMismatch) <==> Refused(r, existing, cfg) && Runs(r, s.host))
            && (pc == Raised(StartFailed) <==>
                  r.status == Failed && !Truthy(existing) && (r.ownerPid <= 0 || Runs(r, s.host)))
            && (pc == Raised(ListeningInvalid) <==>
                  && r.status in {Listening, Ready} && !Truthy(r.address) && !Truthy(existing)
                  && !Refused(r, existing, cfg) && (r.ownerPid <= 0 || Runs(r, s.host)))
            && (pc == Raised(StartTimeout) <==>
                  r.status == Starting && !Refused(r, existing, cfg) && Runs(r, s.host) && Overdue(r, cfg, now))
            && (pc.Raised? ==> pc.code in {ConfigMismatch, StartFailed, ListeningInvalid, StartTimeout} && s'.file == s.file)
  {
    SameMeaning(Read(s.file), s.host, s.procs[p].pc.existing, s.procs[p].cfg, now);
  }

  /** Exactly when the record is erased, and exactly when the process just waits. */
  lemma ElectSleepsIff(s: State, p: int, now: real)
    requires Enabled(s, Elect(p, now))
    ensures var s' := Apply(s, Elect(p, now));
            var r, cfg, existing, pc := Read(s.file), s.procs[p].cfg, s.procs[p].pc.existing, s'.procs[p].pc;
            && (pc.Sleeping? && s'.file != s.file <==>
                  && !Runs(r, s.host)
                  && (|| Refused(r, existing, cfg) || r.status == Starting
                      || (r.status in {Listening, Ready} && r.ownerPid > 0)
                      || (r.status == Failed && r.ownerPid > 0 && !Truthy(existing))))
            && (pc.Sleeping? && s'.file == s.file <==>
                  && r.status == Starting && Runs(r, s.host) && !Refused(r, existing, cfg)
                  && !Overdue(r, cfg, now) && !Truthy(existing))
            && (pc.Sleeping? && s'.file != s.file ==> s'.file == Some(DEFAULT))
  {
    SameMeaning(Read(s.file), s.host, s.procs[p].pc.existing, s.procs[p].cfg, now);
  }

  /** Exactly when the process goes on to connect, and where to. */
  lemma ElectConnectsIff(s: State, p: int, now: real)
    requires Enabled(s, Elect(p, now))
    ensures var s' := Apply(s, Elect(p, now));
            var r, cfg, existing, pc := Read(s.file), s.procs[p].cfg, s.procs[p].pc.existing, s'.procs[p].pc;
            && (pc.Pinging? <==>
                  && !Refused(r, existing, cfg)
                  && (Truthy(existing) || (r.status in {Listening, Ready} && Truthy(r.address)))
                  && (r.status in {Listening, Ready} ==> r.ownerPid <= 0 || Runs(r, s.host))
                  && (r.status == Starting ==> Runs(r, s.host) && !Overdue(r, cfg, now)))
            && (pc.Pinging? ==>
                  && s'.file == s.file && pc.seen == r && pc.existing == existing
                  && Some(pc.connect) == if r.status in {Listening, Ready} && Truthy(r.address) then r.address else existing)
  {
    SameMeaning(Read(s.file), s.host, s.procs[p].pc.existing, s.procs[p].cfg, now);
  }

  /** The steps outside the lock move only their own process, and leave the file. */
  lemma UnlockedSteps(s: State, e: Event)
    requires Enabled(s, e) && IsElectionStep(e) && !e.Elect? && !e.Reread? && !e.Refresh? && !e.RecordOutcome?
    ensures var s', pc := Apply(s, e), s.procs[e.p].pc;
            && s'.file == s.file && s'.host == s.host
            && s'.procs == s.procs[e.p := s'.procs[e.p]]
            && s'.procs[e.p].cfg == (if e.Begin? then e.cfg else s.procs[e.p].cfg)
            && s'.procs[e.p].pc ==
               match e
               case Begin(_, _) | Wake(_) => Observing
               case Observe(_, existing) => Deciding(existing)
               case Ping(_, answers) =>
                 if answers then Connected(pc.connect, pc.seen, pc.existing) else Rereading(pc.connect)
               case LaunchOk(_, address, session) => Launched(pc.leader, address, session)
               case LaunchError(_) => LaunchFailed(pc.leader)
               case _ => Raised(Interrupted)
  {
  }

  /** After a failed connection: another round on a launch in progress, an attempt to
      erase a dead owner's record of that address, and otherwise an error. */
  lemma RereadIff(s: State, p: int)
    requires Enabled(s, Reread(p))
    ensures var s' := Apply(s, Reread(p));
            var r, connect, pc := Read(s.file), s.procs[p].pc.connect, s'.procs[p].pc;
            var deadThere := && r.status in {Listening, Ready, Failed} && r.address.Some? && Strip(r.address.value) == connect
                             && connect != "" && !Runs(r, s.host);
            && s'.file == s.file
            && (pc == Sleeping <==> r.status == Starting)
            && (pc == Refreshing(connect) <==> deadThere)
            && (pc == Raised(NoDaemon) <==> r.status != Starting && !deadThere)
  {
    var r, connect := Read(s.file), s.procs[p].pc.connect;
    StripProps("");
    assert HasLiveOwner(s.host, r) <==> Runs(r, s.host);
    assert StrippedAddress(r) != "" && StrippedAddress(r) == connect <==>
             r.address.Some? && Strip(r.address.value) == connect && connect != "";
  }

  /** The last locked section erases exactly a dead owner's record of the address that
      did not answer, whatever happened in between. */
  lemma RefreshErasesIff(s: State, p: int)
    requires Enabled(s, Refresh(p)) && s.procs[p].pc.connect != ""
    ensures var s' := Apply(s, Refresh(p));
            var r, connect := Read(s.file), s.procs[p].pc.connect;
            && s'.procs[p].pc == Sleeping && s'.file in {s.file, Some(DEFAULT)}
            && (s'.file != s.file <==>
                  && r.status in {Listening, Ready, Failed} && r.address.Some? && Strip(r.address.value) == connect
                  && !Runs(r, s.host))
  {
    var r, connect := Read(s.file), s.procs[p].pc.connect;
    StripProps("");
    assert HasLiveOwner(s.host, r) <==> Runs(r, s.host);
    assert StrippedAddress(r) == connect <==> r.address.Some? && Strip(r.address.value) == connect;
  }

  /** The context that is closed, and the effect: the file goes exactly when it names the
      session or the address of the context, so afterwards nobody finds either in it. */
  lemma CloseErasesIff(s: State, e: Event, session: string, address: string)
    requires Enabled(s, e) && session != ""
    requires e == CloseElsewhere(session, address) || (e.Close? && s.procs[e.p].pc == Owner(address, session))
    ensures var s' := Apply(s, e);
            && s'.file == (if s.file.Some? && (s.file.value.sessionId == Some(session) || s.file.value.address == Some(address))
                           then None else s.file)
            && (s'.file.Some? ==> s'.file.value.sessionId != Some(session) && s'.file.value.address != Some(address))
            && (e.Close? ==> s'.procs[e.p].pc == Idle)
  {
  }

  /** An owner without a session leaves the file behind. */
  lemma CloseWithoutSession(s: State, p: int)
    requires Enabled(s, Close(p)) && s.procs[p].pc.session == ""
    ensures Apply(s, Close(p)).file == s.file && Apply(s, Close(p)).procs[p].pc == Idle
  {
  }

  /** A promotion makes READY exactly the LISTENING record of its session and address, and
      changes nothing else of it. */
  lemma PromoteIff(s: State, session: string, address: string)
    ensures var s', r := Apply(s, Promote(session, address)), Read(s.file);
            && s'.procs == s.procs
            && (s'.file != s.file <==>
                  r.status == Listening && OrEmpty(r.sessionId) == session && OrEmpty(r.address) == address)
            && (s'.file != s.file ==> s'.file == Some(r.(status := Ready)))
  {
  }
}
