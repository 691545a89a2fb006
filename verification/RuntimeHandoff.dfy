/** Browser-preserving daemon handoff around an executable replacement
    (scripts/publish-local-dashboard-runtime.js). Every method returns, as the ghost
    `done`, the acts it appended to the history. */
module RuntimeHandoff {
  import opened JsValues
  import opened HandoffIdentity
  import opened HandoffWorld
  import opened HandoffReport
  import opened PrepareReport
  import opened ResumeReport
  import opened HandoffJournal

  class Publisher {
    const world: World
    var history: History
    var clock: nat
    var prepared: seq<PreparedHandoff>
    var retiredIdleSessions: seq<RetiredSession>
    var unsupportedActiveSessions: seq<UnsupportedSession>
    var rollbackResumed: seq<RollbackResult>
    var resumed: seq<ResumedHandoff>

    constructor (world: World)
      ensures this.world == world && history == [] && prepared == [] && retiredIdleSessions == []
      ensures unsupportedActiveSessions == [] && rollbackResumed == [] && resumed == []
    {
      this.world := world;
      history, clock := [], 0;
      prepared, retiredIdleSessions, unsupportedActiveSessions, rollbackResumed, resumed := [], [], [], [], [];
    }

    method Note(session: string, act: Act)
      modifies `history, `clock
      ensures history == old(history) + [Event(session, act)]
      ensures clock == old(clock) + world.elapsed(old(history)) + if act.Sleep? then act.ms else 0
    {
      clock := clock + world.elapsed(history) + if act.Sleep? then act.ms else 0;
      history := history + [Event(session, act)];
    }

    method RunAgentJson(bin: string, session: string, command: Command, env: Js<DisplayEnvironment>) returns (reply: Reply)
      modifies `history, `clock
      ensures reply == world.run(old(history), bin, session, command, env)
      ensures history == old(history) + [Event(session, Run(bin, command, env, reply))]
    {
      reply := world.run(history, bin, session, command, env);
      Note(session, Run(bin, command, env, reply));
    }

    method ReadRuntimePid(session: string) returns (pid: Js<int>)
      modifies `history, `clock
      ensures pid == (if Positive(world.pidFile(old(history), session)) then world.pidFile(old(history), session) else Null)
      ensures history == old(history) + [Event(session, ReadPidFile(pid))]
      ensures clock == old(clock) + world.elapsed(old(history))
    {
      var value := world.pidFile(history, session);
      pid := if Positive(value) then value else Null;
      Note(session, ReadPidFile(pid));
    }

    /** Zombie-aware liveness (scripts/lib/runtime-daemon-exit.js:4-25). */
    method ProcessIsLive(session: string, pid: Js<int>) returns (live: bool, ghost done: History)
      modifies `history, `clock
      ensures history == old(history) + done
      ensures Positive(pid) ==> live == world.live(old(history), pid.v) && done == [Event(session, Probe(pid.v, live))]
      ensures !Positive(pid) ==> !live && done == []
      ensures clock == old(clock) + if Positive(pid) then world.elapsed(old(history)) else 0
    {
      live, done := false, [];
      if Positive(pid) {
        live := world.live(history, pid.v);
        done := [Event(session, Probe(pid.v, live))];
        Note(session, Probe(pid.v, live));
      }
    }

    /** One look at the session: has a new owner appeared, is the prior process gone? */
    method PollDaemon(session: string, priorPid: Js<int>) returns (r: Result<bool, HandoffError>, ghost done: History)
      modifies `history, `clock
      ensures history == old(history) + done && clock == old(clock) + Duration(world, old(history), done)
      ensures r.Ok? ==> Looked(done, session, priorPid, !r.value)
      ensures r.Err? ==>
                && r.error.SessionReacquired? && r.error.session == session && Value(r.error.pid) != priorPid
                && done == [Event(session, ReadPidFile(Value(r.error.pid))), Event(session, Probe(r.error.pid, true))]
    {
      hide Duration, Looked;
      DurationOfNothing(world, history);
      var currentPid := ReadRuntimePid(session);
      ghost var read := Event(session, ReadPidFile(currentPid));
      DurationStep(world, old(history), [], read);
      assert [] + [read] == [read] && old(history) + [] == old(history);
      done := [read];
      ghost var owner := [];
      assert history == old(history) + done;
      if currentPid != priorPid {
        var reacquired, probed := ProcessIsLive(session, currentPid);
        ProbeTakes(world, old(history), done, probed);
        owner := probed;
        done := done + probed;
        if reacquired {
          return Err(SessionReacquired(session, currentPid.v)), done;
        }
      }
      assert done == [read] + owner;
      assert history == old(history) + done;
      var live, probed := ProcessIsLive(session, priorPid);
      ProbeTakes(world, old(history), done, probed);
      LookComplete(session, priorPid, currentPid, owner, probed, live);
      done := done + probed;
      r := Ok(!live);
    }

    /** waitForRuntimeDaemonExit: returns once the prior process is observed dead, and
        no sooner gives up than at a live new owner or after the full timeout. */
    method WaitForDaemonExit(session: string, priorPid: Js<int>) returns (r: Result<(), HandoffError>, ghost done: History)
      modifies `history, `clock
      ensures history == old(history) + done && For(done, session) && OnlyWaits(done)
      ensures r.Ok? ==> Waited(done, session, priorPid, true)
      ensures r.Ok? && Positive(priorPid) ==> Last(done, session, Probe(priorPid.v, false))
      ensures r.Err? ==> WaitFailed(world, old(history), done, session, priorPid, r.error)
      ensures r.Err? ==> Plain(r.error) && Evidence(r.error, session, None, done)
      ensures r.Err? ==> r.error.ExitTimeout? || (r.error.SessionReacquired? && Value(r.error.pid) != priorPid)
      ensures r.Err? && r.error.ExitTimeout? ==> Positive(priorPid) && Last(done, session, Probe(priorPid.v, true))
    {
      hide Looked, Waiting, Waited, Reacquired, For, OnlyWaits, Duration, Evidence;
      var deadline := clock + EXIT_TIMEOUT_MS;
      done := [];
      NothingWaited(session, priorPid);
      DurationOfNothing(world, history);
      while true
        invariant history == old(history) + done && Waiting(done, session, priorPid)
        invariant clock == old(clock) + Duration(world, old(history), done)
        decreases deadline - clock
      {
        ghost var before, start := done, history;
        var gone, polled := PollDaemon(session, priorPid);
        DurationAppend(world, old(history), before, polled);
        done := before + polled;
        if gone.Err? {
          FindsOwner(before, polled, session, priorPid, gone.error.pid);
          ReacquiredActs(before, polled, session, priorPid, gone.error.pid);
          return Err(gone.error), done;
        }
        LooksLastEnds(before, polled, session, priorPid, gone.value);
        if gone.value {
          return Ok(()), done;
        }
        if clock >= deadline {
          LiveIsTimeout(done, session, priorPid);
          return Err(ExitTimeout(session)), done;
        }
        LooksAgain(before, polled, session, priorPid);
        DurationStep(world, old(history), done, Event(session, Sleep(POLL_MS)));
        assert history == old(history) + done;
        Note(session, Sleep(POLL_MS));
        done := done + [Event(session, Sleep(POLL_MS))];
      }
    }

    /** `kill(pid, 0)` only, which still sees a zombie
        (scripts/lib/prepared-daemon-retirement.js:59-67). */
    method ProcessIsPresent(session: string, pid: Js<int>) returns (present: bool, ghost done: History)
      modifies `history, `clock
      ensures history == old(history) + done
      ensures Positive(pid) ==> present == world.present(old(history), pid.v) && done == [Event(session, ProbeRaw(pid.v, present))]
      ensures !Positive(pid) ==> !present && done == []
      ensures clock == old(clock) + Duration(world, old(history), done)
    {
      present, done := false, [];
      if Positive(pid) {
        present := world.present(history, pid.v);
        done := [Event(session, ProbeRaw(pid.v, present))];
        DurationStep(world, history, [], done[0]);
        assert [] + done == done && history + [] == history;
        Note(session, ProbeRaw(pid.v, present));
      }
    }

    method SignalProcess(session: string, pid: int, signal: Signal) returns (delivered: bool)
      modifies `history, `clock
      ensures delivered == world.deliver(old(history), pid, signal)
      ensures history == old(history) + [Event(session, SendSignal(pid, signal, delivered))]
      ensures clock >= old(clock)
    {
      delivered := world.deliver(history, pid, signal);
      Note(session, SendSignal(pid, signal, delivered));
    }

    /** Polls until the process is absent; gives up only after the full timeout. */
    method WaitForProcessExit(session: string, pid: Js<int>, timeoutMs: nat) returns (exited: bool, ghost done: History)
      requires Positive(pid)
      modifies `history, `clock
      ensures history == old(history) + done && For(done, session) && OnlyWaits(done)
      ensures Last(done, session, ProbeRaw(pid.v, !exited))
      ensures !exited ==> Duration(world, old(history), done) >= timeoutMs
    {
      hide Duration, For, OnlyWaits;
      var deadline := clock + timeoutMs;
      done := [];
      WaitsNothing(session);
      DurationOfNothing(world, history);
      while clock < deadline
        invariant history == old(history) + done && For(done, session) && OnlyWaits(done)
        invariant clock == old(clock) + Duration(world, old(history), done)
        decreases deadline - clock
      {
        var present, probed := ProcessIsPresent(session, pid);
        DurationOfProbe(world, old(history), done, probed[0]);
        WaitsAfter(session, done, probed[0]);
        done := done + [probed[0]];
        if !present {
          return true, done;
        }
        ghost var pause := Event(session, Sleep(POLL_MS));
        DurationStep(world, old(history), done, pause);
        WaitsAfter(session, done, pause);
        assert history == old(history) + done;
        Note(session, Sleep(POLL_MS));
        done := done + [pause];
      }
      var present, probed := ProcessIsPresent(session, pid);
      DurationOfProbe(world, old(history), done, probed[0]);
      WaitsAfter(session, done, probed[0]);
      done := done + [probed[0]];
      exited := !present;
    }

    /** The checks of retirePreparedDaemon before any signal. */
    method VerifyRetirementBoundary(p: PreparedHandoff) returns (r: Result<(), HandoffError>, ghost done: History)
      modifies `history, `clock
      ensures history == old(history) + done && For(done, p.sessionName) && HandsOff(done)
      ensures r.Ok? <==> BoundaryActs(done, p)
      ensures r.Err? ==> Evidence(r.error, p.sessionName, Some(p), done)
      ensures r.Err? ==> r.error.NoRetirementBoundary? || r.error.RecordInvalid? || r.error.DescriptorMismatch?
    {
      hide BoundaryActs, Evidence, For, HandsOff, DescribesPrepared;
      done := [];
      if !Truthy(p.handoffPath) {
        NothingToVerify(p);
        return Err(NoRetirementBoundary(p.sessionName)), done;
      }
      var file := world.record(history, p.handoffPath.v);
      Note(p.sessionName, ReadRecord(p.handoffPath.v, file));
      done := [Event(p.sessionName, ReadRecord(p.handoffPath.v, file))];
      ReadProves(p, file);
      if file.Missing? {
        return Err(NoRetirementBoundary(p.sessionName)), done;
      }
      if file.Unparsable? {
        return Err(RecordInvalid(p.sessionName)), done;
      }
      if !DescribesPrepared(file.fields, p) {
        return Err(DescriptorMismatch(p.sessionName)), done;
      }
      if p.browserPid.Value? {
        var browserPresent, probed := ProcessIsPresent(p.sessionName, p.browserPid);
        PresenceProves(p, done[0], probed, browserPresent);
        done := done + probed;
        if !browserPresent {
          return Err(DescriptorMismatch(p.sessionName)), done;
        }
      }
      r := Ok(());
    }

    /** The second signal of retirePreparedDaemon. */
    method KillAndWait(p: PreparedHandoff) returns (r: Result<(), HandoffError>, ghost done: History)
      requires Positive(p.daemonPid)
      modifies `history, `clock
      ensures history == old(history) + done && KillActs(done, p)
      ensures r.Ok? ==> done[0].act.delivered && Last(done, p.sessionName, ProbeRaw(p.daemonPid.v, false))
      ensures r.Err? ==> Evidence(r.error, p.sessionName, Some(p), done)
      ensures r.Err? ==> if done[0].act.delivered then r.error.RemainedLive? else r.error.SignalFailed?
    {
      var killSent := SignalProcess(p.sessionName, p.daemonPid.v, SIGKILL);
      ghost var kill := Event(p.sessionName, SendSignal(p.daemonPid.v, SIGKILL, killSent));
      done := [kill];
      if !killSent {
        return Err(SignalFailed(p.sessionName)), done;
      }
      var exited, waited := WaitForProcessExit(p.sessionName, p.daemonPid, RETIRE_TIMEOUT_MS);
      done := [kill] + waited;
      assert done[1..] == waited;
      r := if exited then Ok(()) else Err(RemainedLive(p.sessionName));
    }

    /** The signals of retirePreparedDaemon: SIGTERM, then SIGKILL if that was not enough. */
    method SignalUntilGone(p: PreparedHandoff) returns (r: Result<string, HandoffError>, ghost done: History)
      requires Positive(p.daemonPid)
      modifies `history, `clock
      ensures history == old(history) + done && For(done, p.sessionName)
      ensures forall e :: e in done ==> !e.act.Run?
      ensures SignalsInOrder(world, old(history), done, p.sessionName, p.daemonPid.v)
      ensures r.Ok? ==> Signalled(done, p.sessionName, p.daemonPid.v, r.value)
      ensures r.Err? ==> Evidence(r.error, p.sessionName, Some(p), done)
      ensures r.Err? ==> r.error.SignalFailed? || r.error.RemainedLive?
    {
      hide Duration, Evidence, For, OnlyWaits, KillActs, Signalled, SignalsInOrder;
      var session, pid := p.sessionName, p.daemonPid.v;
      var termSent := SignalProcess(session, pid, SIGTERM);
      ghost var term := Event(session, SendSignal(pid, SIGTERM, termSent));
      if !termSent {
        FailedSignal(world, old(history), p, term);
        return Err(SignalFailed(session)), [term];
      }
      assert history == old(history) + [term];
      var exited, waited := WaitForProcessExit(session, p.daemonPid, RETIRE_TIMEOUT_MS);
      done := [term] + waited;
      if exited {
        TermActs(world, old(history), p, term, waited);
        return Ok("SIGTERM"), done;
      }
      var killed, killing := KillAndWait(p);
      TermThenKill(world, old(history), p, term, waited, killing);
      done := [term] + waited + killing;
      if killed.Ok? {
        KillSucceeded(p, term, waited, killing);
        r := Ok("SIGKILL");
      } else {
        EvidenceGrows(killed.error, session, Some(p), [term] + waited, killing);
        r := Err(killed.error);
      }
    }

    /** The tail of retirePreparedDaemon: the retained browser must have survived. */
    method SignalAndCheckBrowser(p: PreparedHandoff) returns (r: Result<string, HandoffError>, ghost done: History)
      requires Positive(p.daemonPid) && (p.browserPid.Value? ==> Positive(p.browserPid))
      modifies `history, `clock
      ensures history == old(history) + done && For(done, p.sessionName)
      ensures forall e :: e in done ==> !e.act.Run?
      ensures SignalsInOrder(world, old(history), done, p.sessionName, p.daemonPid.v)
      ensures r.Ok? ==> SignalledSafely(done, p, r.value) && r.value != "already_exited"
      ensures r.Err? ==> Evidence(r.error, p.sessionName, Some(p), done)
      ensures r.Err? ==> r.error.SignalFailed? || r.error.RemainedLive? || r.error.BrowserLost?
    {
      hide Signalled, SignalsInOrder, Evidence, SignalledSafely, For;
      var gone, signals := SignalUntilGone(p);
      r, done := gone, signals;
      if gone.Ok? {
        if p.browserPid.Value? {
          var browserPresent, probed := ProcessIsPresent(p.sessionName, p.browserPid);
          SignalledThenProbed(world, old(history), signals, probed[0], p, gone.value);
          done := signals + [probed[0]];
          if !browserPresent {
            EvidenceAt(BrowserLost(p.sessionName), p.sessionName, Some(p), done);
            r := Err(BrowserLost(p.sessionName));
          }
        } else {
          SignalledAlone(signals, p, gone.value);
        }
      }
    }

    /** retirePreparedDaemon: signals the daemon only after its durable record
        proved to describe the very handoff that was prepared. */
    method RetirePreparedDaemon(p: PreparedHandoff) returns (r: Result<string, HandoffError>, ghost done: History)
      requires Positive(p.daemonPid)
      modifies `history, `clock
      ensures history == old(history) + done && For(done, p.sessionName)
      ensures forall e :: e in done ==> !e.act.Run? && (e.act.SendSignal? ==> e.act.target == p.daemonPid.v)
      ensures SignalsBehindBoundary(world, old(history), done, p)
      ensures r.Ok? ==> Retirement(done, p, r.value)
      ensures r.Err? ==> Evidence(r.error, p.sessionName, Some(p), done) && !r.error.ExitTimeout? && !r.error.SessionReacquired?
    {
      hide BoundaryActs, Evidence, SignalsInOrder, SignalledSafely, Duration;
      ghost var signaled;
      var verified, proof := VerifyRetirementBoundary(p);
      done := proof;
      if verified.Err? {
        return Err(verified.error), done;
      }
      BoundaryIsHandsOff(proof, p);
      var daemonPresent, probed := ProcessIsPresent(p.sessionName, p.daemonPid);
      ghost var probe := probed[0];
      if !daemonPresent {
        RetirementParts(proof, probe, [], p);
        done := proof + [probe] + [];
        return Ok("already_exited"), done;
      }
      assert history == old(history) + (proof + [probe]);
      r, signaled := SignalAndCheckBrowser(p);
      RetirementParts(proof, probe, signaled, p);
      OrderedTargets(world, old(history) + (proof + [probe]), signaled, p.sessionName, p.daemonPid.v);
      done := proof + [probe] + signaled;
      if r.Err? {
        EvidenceGrows(r.error, p.sessionName, Some(p), proof + [probe], signaled);
      }
    }

    /** Records an accepted prepare, then waits for the old daemon to go; a daemon
        that outlives the wait is retired through its durable record. */
    method AdmitPrepared(p: PreparedHandoff) returns (r: Result<(), HandoffError>, ghost done: History)
      requires Positive(p.daemonPid) && p.strandedDaemonTermination == Null
      modifies `history, `clock, `prepared
      ensures history == old(history) + done && For(done, p.sessionName)
      ensures forall e :: e in done ==> !e.act.Run? && (e.act.SendSignal? ==> e.act.target == p.daemonPid.v)
      ensures |prepared| == |old(prepared)| + 1 && prepared[..|old(prepared)|] == old(prepared)
      ensures prepared[|old(prepared)|].(strandedDaemonTermination := Null) == p
      ensures r.Ok? ==> GoneBy(world, old(history), done, prepared[|old(prepared)|])
      ensures r.Err? ==> AdmitFailed(world, old(history), done, prepared[|old(prepared)|], r.error)
      ensures r.Err? ==> Evidence(r.error, p.sessionName, Some(prepared[|old(prepared)|]), done)
    {
      hide Evidence, For, GoneBy, AdmitFailed, Retirement, OnlyWaits, SignalsBehindBoundary, Waited, WaitFailed, Duration;
      prepared := prepared + [p];
      ghost var waited;
      r, waited := WaitForDaemonExit(p.sessionName, p.daemonPid);
      WaitsOnly(waited);
      done := waited;
      if r.Ok? {
        GoneByWaiting(world, old(history), waited, p);
      } else if !r.error.ExitTimeout? {
        FailedByWaiting(world, old(history), waited, p, r.error);
        PlainEvidence(r.error, p.sessionName, Some(p), waited);
      } else {
        assert history == old(history) + waited;
        var retired, retiring := RetirePreparedDaemon(p);
        ForConcat(waited, retiring, p.sessionName);
        done := waited + retiring;
        if retired.Err? {
          FailedByRetiring(world, old(history), waited, retiring, p, r.error, retired.error);
          EvidenceGrows(retired.error, p.sessionName, Some(p), waited, retiring);
          return Err(retired.error), done;
        }
        ghost var timeout := r.error;
        assert history == old(history) + done;
        var q := p.(strandedDaemonTermination := Value(retired.value));
        prepared := prepared[..|prepared|-1] + [q];
        ghost var waitedAgain;
        r, waitedAgain := WaitForDaemonExit(p.sessionName, p.daemonPid);
        WaitsOnly(waitedAgain);
        RetiredBetween(world, old(history), waited, retiring, waitedAgain, p, q, timeout);
        ForConcat(waited + retiring, waitedAgain, p.sessionName);
        done := waited + retiring + waitedAgain;
        if r.Err? {
          FailedAfterRetiring(world, old(history), done, |waited|, |waited + retiring|, q, r.error);
          PlainEvidence(r.error, p.sessionName, Some(q), waitedAgain);
          EvidenceGrows(r.error, p.sessionName, Some(q), waited + retiring, waitedAgain);
        } else {
          GoneByRetiring(world, old(history), done, |waited|, |waited + retiring|, q);
        }
      }
    }

    method ServiceBrowserForSession(bin: string, session: string, expected: Option<PreparedHandoff>, env: Js<DisplayEnvironment>)
      returns (readback: Readback, ghost done: History)
      modifies `history, `clock
      ensures var reply := world.run(old(history), bin, session, ServiceBrowsers, env);
              readback == ReadbackOf(reply, session, expected) && done == [Event(session, Run(bin, ServiceBrowsers, env, reply))]
      ensures history == old(history) + done
    {
      var reply := RunAgentJson(bin, session, ServiceBrowsers, env);
      readback := ReadbackOf(reply, session, expected);
      done := [Event(session, Run(bin, ServiceBrowsers, env, reply))];
    }

    /** Asks who owns the session's browser, once more through the installed client
        if the daemon's own executable vanished in between. */
    method ReadOwnership(daemonClientBin: string, rollbackBin: string, session: string)
      returns (readback: Readback, ghost done: History)
      modifies `history, `clock
      ensures history == old(history) + done && 1 <= |done| <= 2
      ensures Ran(done[0], session, ServiceBrowsers) && Ran(done[|done|-1], session, ServiceBrowsers)
      ensures readback == ReadbackOf(done[|done|-1].act.reply, session, None)
      ensures var first := ReadbackOf(done[0].act.reply, session, None);
              |done| == 2 <==> daemonClientBin != rollbackBin && !first.success && MentionsEnoent(first.error)
      ensures done[0].act.bin == daemonClientBin && (|done| == 2 ==> done[1].act.bin == rollbackBin)
    {
      readback, done := ServiceBrowserForSession(daemonClientBin, session, None, Undefined);
      if !readback.success && daemonClientBin != rollbackBin && MentionsEnoent(readback.error) {
        var again, rerun := ServiceBrowserForSession(rollbackBin, session, None, Undefined);
        readback := again;
        done := done + rerun;
      }
    }

    /** The browser the session still drives, if any. */
    method ActiveBrowser(daemonClientBin: string, rollbackBin: string, session: string)
      returns (r: Result<Option<BrowserRecord>, HandoffError>, ghost done: History)
      modifies `history, `clock
      ensures history == old(history) + done && For(done, session)
      ensures forall e :: e in done ==> !e.act.SendSignal? && (e.act.Run? ==> e.act.command.ServiceBrowsers?)
      ensures Through(done, daemonClientBin, rollbackBin)
      ensures r.Err? ==> r.error == OwnershipUnproven(session) && Evidence(r.error, session, None, done)
      ensures r.Ok? && r.value.Some? ==> SeenActive(done, session, r.value.value)
      ensures r.Ok? && r.value.None? ==> SeenIdle(done, session)
    {
      hide SeenActive, SeenIdle, Evidence, ReadbackOf, MentionsEnoent, Accepted, For, Through;
      var readback, owned := ReadOwnership(daemonClientBin, rollbackBin, session);
      done := owned;
      OwnershipThrough(owned, [], daemonClientBin, rollbackBin);
      ReadsOnly(owned, [], session);
      assert owned + [] == owned;
      if !readback.success {
        OwnershipReadback(owned, [], session, readback, false);
        return Err(OwnershipUnproven(session)), done;
      }
      var processLive := false;
      ghost var probed := [];
      if readback.browser.Some? {
        processLive, probed := ProcessIsLive(session, readback.browser.value.pid);
        done := owned + probed;
      }
      ReadsOnly(owned, probed, session);
      OwnershipThrough(owned, probed, daemonClientBin, rollbackBin);
      OwnershipReadback(owned, probed, session, readback, processLive);
      r := Ok(if AppearsActive(readback.browser, processLive) then readback.browser else None);
    }

    /** Closes a session and waits for its daemon to go. */
    method CloseIdle(daemonClientBin: string, session: string, daemonPid: Js<int>) returns (r: Result<(), HandoffError>, ghost done: History)
      requires Positive(daemonPid)
      modifies `history, `clock, `retiredIdleSessions
      ensures history == old(history) + done && For(done, session)
      ensures |done| > 0 && Ran(done[0], session, Close) && done[0].act.bin == daemonClientBin && OnlyWaits(done[1..])
      ensures if r.Ok? then
                && |done| > 1 && Last(done, session, Probe(daemonPid.v, false))
                && ClosedWait(done[1..], session, daemonPid, !Accepted(done[0].act.reply))
                && retiredIdleSessions == old(retiredIdleSessions) + [RetiredSession(session, daemonPid, true, !Accepted(done[0].act.reply))]
              else
                && Evidence(r.error, session, None, done) && !r.error.UnsupportedActive?
                && (Accepted(done[0].act.reply) ==> WaitFailed(world, old(history) + done[..1], done[1..], session, daemonPid, r.error))
                && retiredIdleSessions == old(retiredIdleSessions)
    {
      hide Waited, WaitFailed, Accepted;
      var closed := RunAgentJson(daemonClientBin, session, Close, Undefined);
      ghost var close := Event(session, Run(daemonClientBin, Close, Undefined, closed));
      done := [close];
      if !Accepted(closed) {
        var live, probed := ProcessIsLive(session, daemonPid);
        done := [close] + probed;
        if !live {
          retiredIdleSessions := retiredIdleSessions + [RetiredSession(session, daemonPid, true, true)];
          return Ok(()), done;
        }
        return Err(IdleNotRetired(session)), done;
      }
      ghost var waited;
      r, waited := WaitForDaemonExit(session, daemonPid);
      done := [close] + waited;
      assert done[1..] == waited && done[..1] == [close];
      if r.Err? {
        EvidenceGrows(r.error, session, None, [close], waited);
      } else {
        retiredIdleSessions := retiredIdleSessions + [RetiredSession(session, daemonPid, true, false)];
      }
    }

    /** The compatibility path for a daemon that did not prepare: prove that it
        owns no active browser and close it, or refuse. */
    method RetireWithoutHandoff(daemonClientBin: string, rollbackBin: string, session: string, daemonPid: Js<int>, prepareError: string)
      returns (r: Result<(), HandoffError>, ghost done: History)
      requires Positive(daemonPid)
      modifies `history, `clock, `retiredIdleSessions, `unsupportedActiveSessions
      ensures history == old(history) + done && For(done, session)
      ensures forall e :: e in done ==> !e.act.SendSignal? && (e.act.Run? ==> e.act.command.ServiceBrowsers? || e.act.command.Close?)
      ensures ClosesOnlyIdle(done) && Through(done, daemonClientBin, rollbackBin)
      ensures if r.Ok? then
                && Last(done, session, Probe(daemonPid.v, false))
                && exists exited, k: nat ::
                     && ClosedAt(done, session, daemonPid, exited, k)
                     && retiredIdleSessions == old(retiredIdleSessions) + [RetiredSession(session, daemonPid, true, exited)]
              else Evidence(r.error, session, None, done) && retiredIdleSessions == old(retiredIdleSessions)
      ensures if r == Err(UnsupportedActive(session)) then
                exists b: BrowserRecord :: SeenActive(done, session, b)
                  && unsupportedActiveSessions == old(unsupportedActiveSessions)
                       + [UnsupportedSession(session, daemonPid, OrNull(b.pid), OrNull(b.cdpEndpoint), prepareError)]
              else unsupportedActiveSessions == old(unsupportedActiveSessions)
    {
      hide For, SeenActive, SeenIdle, OnlyWaits, ClosesOnlyIdle, Through, ClosedWait, WaitFailed;
      var active, asked := ActiveBrowser(daemonClientBin, rollbackBin, session);
      NothingCloses(asked);
      done := asked;
      if active.Err? {
        return Err(active.error), done;
      }
      if active.value.Some? {
        var b := active.value.value;
        unsupportedActiveSessions := unsupportedActiveSessions
          + [UnsupportedSession(session, daemonPid, OrNull(b.pid), OrNull(b.cdpEndpoint), prepareError)];
        return Err(UnsupportedActive(session)), done;
      }
      ghost var closing;
      r, closing := CloseIdle(daemonClientBin, session, daemonPid);
      ClosedAfterReadback(asked, closing, session, daemonPid);
      ClosingThrough(asked, closing, session, daemonClientBin, rollbackBin);
      done := asked + closing;
      if r.Err? {
        EvidenceGrows(r.error, session, None, asked, closing);
      } else {
        assert done[|done|-1] == closing[|closing|-1];
      }
    }

    method CaptureDaemon(session: string) returns (r: Result<(Js<int>, DisplayEnvironment), HandoffError>, ghost done: History)
      modifies `history, `clock
      ensures history == old(history) + done && For(done, session)
      ensures forall e :: e in done ==> !e.act.Run? && !e.act.SendSignal?
      ensures r.Err? ==> Evidence(r.error, session, None, done) && r.error == DisplayUnreadable(session) && |done| <= 2
      ensures r.Ok? ==>
                && Positive(r.value.0)
                && done == [Event(session, ReadPidFile(r.value.0)), Event(session, CaptureDisplay(r.value.0.v, Some(r.value.1)))]
    {
      var daemonPid := ReadRuntimePid(session);
      ghost var readPid := Event(session, ReadPidFile(daemonPid));
      done := [readPid];
      if !Positive(daemonPid) {
        return Err(DisplayUnreadable(session)), done;
      }
      var captured := world.display(history, daemonPid.v);
      Note(session, CaptureDisplay(daemonPid.v, captured));
      done := [readPid, Event(session, CaptureDisplay(daemonPid.v, captured))];
      if captured.None? {
        return Err(DisplayUnreadable(session)), done;
      }
      r := Ok((daemonPid, captured.value));
    }

    /** A daemon that answered the prepare with nothing to hand over: it is entered as
        retired at once, and its exit awaited. */
    method RetireEmpty(session: string, daemonPid: Js<int>, ghost reply: Reply) returns (r: Result<(), HandoffError>, ghost done: History)
      requires Positive(daemonPid) && Accepted(reply) && !reply.data.prepared
      modifies `history, `clock, `retiredIdleSessions
      ensures history == old(history) + done && For(done, session) && OnlyWaits(done)
      ensures retiredIdleSessions == old(retiredIdleSessions) + [RetiredSession(session, daemonPid, false, false)]
      ensures r.Ok? ==> IdleExit(done, session, reply, RetiredSession(session, daemonPid, false, false))
      ensures r.Err? ==> Evidence(r.error, session, None, done) && !r.error.UnsupportedActive?
      ensures r.Err? ==> WaitFailed(world, old(history), done, session, daemonPid, r.error)
    {
      hide Accepted, Evidence, Waited, WaitFailed;
      retiredIdleSessions := retiredIdleSessions + [RetiredSession(session, daemonPid, false, false)];
      r, done := WaitForDaemonExit(session, daemonPid);
    }

    /** What the prepare reply leads to. */
    method SettlePrepare(reply: Reply, daemonClientBin: string, rollbackBin: string, session: string, daemonPid: Js<int>, env: DisplayEnvironment)
      returns (r: Result<bool, HandoffError>, ghost done: History, ghost kept: seq<PreparedHandoff>, ghost idle: seq<RetiredSession>)
      requires Positive(daemonPid)
      modifies `history, `clock, `prepared, `retiredIdleSessions, `unsupportedActiveSessions
      ensures history == old(history) + done && For(done, session) && ClosesOnlyIdle(done) && Through(done, daemonClientBin, rollbackBin)
      ensures forall e :: e in done && e.act.Run? ==> e.act.command.ServiceBrowsers? || e.act.command.Close?
      ensures prepared == old(prepared) + kept && retiredIdleSessions == old(retiredIdleSessions) + idle
      ensures if Gives(reply) then
                && |kept| == 1 && idle == []
                && kept[0].(strandedDaemonTermination := Null) == HandoffFrom(session, daemonPid, reply.data, env)
              else kept == []
      ensures r.Ok? ==> (r.value <==> Gives(reply))
      ensures r.Ok? && r.value ==> GoneBy(world, old(history), done, kept[0])
      ensures r.Ok? && !r.value ==> |idle| == 1 && idle[0].daemonPid == daemonPid && IdleExit(done, session, reply, idle[0])
      ensures r.Err? ==> Evidence(r.error, session, AboutOf(kept), done)
      ensures r.Err? && kept != [] ==> AdmitFailed(world, old(history), done, kept[0], r.error)
      ensures r.Err? && idle != [] ==> WaitFailed(world, old(history), done, session, daemonPid, r.error)
      ensures r.Err? ==> idle == if Accepted(reply) && !reply.data.prepared then [RetiredSession(session, daemonPid, false, false)] else []
      ensures if r == Err(UnsupportedActive(session)) then
                exists b: BrowserRecord :: SeenActive(done, session, b)
                  && unsupportedActiveSessions == old(unsupportedActiveSessions)
                       + [UnsupportedSession(session, daemonPid, OrNull(b.pid), OrNull(b.cdpEndpoint), reply.error)]
              else unsupportedActiveSessions == old(unsupportedActiveSessions)
      ensures r == Err(UnsupportedActive(session)) ==> !Accepted(reply)
    {
      hide For, ClosesOnlyIdle, Accepted, OnlyWaits, Evidence, GoneBy, AdmitFailed, WaitFailed, IdleExit, SeenActive, ClosedAt, Through;
      kept, idle := [], [];
      if Accepted(reply) && reply.data.prepared {
        var admitted;
        admitted, done := AdmitPrepared(HandoffFrom(session, daemonPid, reply.data, env));
        NothingCloses(done);
        RunsThrough(done, daemonClientBin, rollbackBin);
        kept := [prepared[|prepared|-1]];
        r := if admitted.Ok? then Ok(true) else Err(admitted.error);
        if r.Err? {
          RunsNothing(r.error, session, AboutOf(kept), done);
        }
      } else if Accepted(reply) {
        var waited;
        waited, done := RetireEmpty(session, daemonPid, reply);
        WaitsOnly(done);
        NothingCloses(done);
        RunsThrough(done, daemonClientBin, rollbackBin);
        idle := [RetiredSession(session, daemonPid, false, false)];
        r := if waited.Ok? then Ok(false) else Err(waited.error);
      } else {
        var retired;
        retired, done := RetireWithoutHandoff(daemonClientBin, rollbackBin, session, daemonPid, reply.error);
        idle := retiredIdleSessions[|old(retiredIdleSessions)|..];
        r := if retired.Ok? then Ok(false) else Err(retired.error);
        if retired.Ok? {
          ClosedExit(done, session, reply, daemonPid, idle[0]);
        }
      }
    }

    /** One iteration of the prepare loop, from reading the daemon's PID to one of
        its exits; `kept` and `idle` are what it appended to the two lists. */
    method PrepareSession(clientBin: string, rollbackBin: string, session: string)
      returns (r: Result<bool, HandoffError>, ghost done: History, ghost kept: seq<PreparedHandoff>, ghost idle: seq<RetiredSession>)
      modifies `history, `clock, `prepared, `retiredIdleSessions, `unsupportedActiveSessions
      ensures history == old(history) + done && For(done, session) && ClosesOnlyIdle(done)
      ensures forall e :: e in done && e.act.Run? ==> !e.act.command.HandoffResume?
      ensures prepared == old(prepared) + kept && retiredIdleSessions == old(retiredIdleSessions) + idle
      ensures if GaveUp(done, session) then |kept| == 1 && kept[0].sessionName == session && PreparedBy(done, clientBin, kept[0]) else kept == []
      ensures r.Ok? && r.value ==> |kept| == 1 && idle == [] && HandedBy(world, old(history), done, clientBin, kept[0])
      ensures r.Ok? && !r.value ==> |idle| == 1 && kept == [] && idle[0].sessionName == session && RetiredBy(done, clientBin, idle[0])
      ensures r.Err? ==> StoppedBy(world, old(history), done, clientBin, session, kept, idle, r.error)
      ensures TalksThroughDaemon(world, old(history), done, rollbackBin)
      ensures if r == Err(UnsupportedActive(session)) then
                exists entry :: UnsupportedFor(done, clientBin, session, entry)
                  && unsupportedActiveSessions == old(unsupportedActiveSessions) + [entry]
              else unsupportedActiveSessions == old(unsupportedActiveSessions)
    {
      hide GaveUp, SeenActive, Evidence, For, ClosesOnlyIdle, GoneBy, AdmitFailed, WaitFailed, IdleExit, PreparedBy, HandedBy, RetiredBy, StoppedBy, Gives, Accepted, Through, Opens, UnsupportedFor, TalksThroughDaemon;
      kept, idle := [], [];
      var daemon, capturing := CaptureDaemon(session);
      done := capturing;
      NothingCloses(capturing);
      if daemon.Err? {
        NotPrepared(capturing, session);
        StoppedEarly(world, old(history), capturing, clientBin, session, daemon.error);
        NoClientYet(world, old(history), capturing, rollbackBin);
        return Err(daemon.error), done, kept, idle;
      }
      var daemonPid := daemon.value.0;
      var executable := world.executable(history, daemonPid.v);
      var daemonClientBin := if executable.Some? then executable.value else rollbackBin;
      var reply := RunAgentJson(clientBin, session, HandoffPrepare, Undefined);
      ghost var head := capturing + [Event(session, Run(clientBin, HandoffPrepare, Undefined, reply))];
      ghost var tail;
      assert history == old(history) + head;
      r, tail, kept, idle := SettlePrepare(reply, daemonClientBin, rollbackBin, session, daemonPid, daemon.value.1);
      done := head + tail;
      IterationOutcome(world, old(history), capturing, head, tail, clientBin, rollbackBin, session, daemonPid, daemon.value.1, reply, r, kept, idle);
      if r == Err(UnsupportedActive(session)) {
        UnsupportedEntry(head, tail, clientBin, session, daemonPid, reply, unsupportedActiveSessions[|old(unsupportedActiveSessions)|]);
      }
    }

    /** The prepare loop. `handed` tells, session by session, whether the exit was a
        handoff or a retirement; its length is how far the loop got. */
    method PrepareEach(clientBin: string, rollbackBin: string, sessions: seq<string>)
      returns (r: Result<(), HandoffError>, ghost done: History, ghost handed: seq<bool>, ghost kept: seq<PreparedHandoff>, ghost idle: seq<RetiredSession>)
      modifies `history, `clock, `prepared, `retiredIdleSessions, `unsupportedActiveSessions
      ensures history == old(history) + done && |handed| <= |sessions|
      ensures forall e :: e in done && e.act.Run? ==> !e.act.command.HandoffResume?
      ensures prepared == old(prepared) + kept && retiredIdleSessions == old(retiredIdleSessions) + idle
      ensures AllBacked(done, clientBin, kept) && ClosesOnlyIdle(done)
      ensures Relinquished(history) == Relinquished(old(history)) + NamesOf(kept)
      ensures r.Ok? ==> Settled(world, old(history), sessions, handed, done, clientBin, kept, idle)
      ensures r.Err? ==> |handed| < |sessions| && StoppedAt(world, old(history), sessions, handed, done, clientBin, kept, idle, r.error)
      ensures if r.Err? && r.error.UnsupportedActive? then
                && |unsupportedActiveSessions| == |old(unsupportedActiveSessions)| + 1
                && unsupportedActiveSessions[..|old(unsupportedActiveSessions)|] == old(unsupportedActiveSessions)
                && unsupportedActiveSessions[|old(unsupportedActiveSessions)|].sessionName == sessions[|handed|]
              else unsupportedActiveSessions == old(unsupportedActiveSessions)
    {
      hide Settled, StoppedAt, StoppedBy, AllBacked, GaveUp, PreparedBy, HandedBy, RetiredBy, SeenActive, ClosesOnlyIdle, NamesOf, Relinquished, For, UnsupportedFor, TalksThroughDaemon;
      r, done, handed, kept, idle := Ok(()), [], [], [], [];
      SettledNothing(world, old(history), sessions[..0], clientBin);
      assert history == old(history) + done && prepared == old(prepared) + kept && retiredIdleSessions == old(retiredIdleSessions) + idle;
      for i := 0 to |sessions|
        invariant history == old(history) + done
        invariant forall e :: e in done && e.act.Run? ==> !e.act.command.HandoffResume?
        invariant unsupportedActiveSessions == old(unsupportedActiveSessions)
        invariant prepared == old(prepared) + kept && retiredIdleSessions == old(retiredIdleSessions) + idle
        invariant ClosesOnlyIdle(done)
        invariant Settled(world, old(history), sessions[..i], handed, done, clientBin, kept, idle)
        invariant Relinquished(history) == Relinquished(old(history)) + NamesOf(kept)
      {
        var session := sessions[i];
        ghost var priorHistory := history;
        var settled, step, newKept, newIdle := PrepareSession(clientBin, rollbackBin, session);
        ClosesConcat(done, step);
        StepRelinquishes(Relinquished(old(history)), priorHistory, step, session, kept, newKept);
        assert sessions[..i+1] == sessions[..i] + [session];
        if settled.Err? {
          FailedStep(world, old(history), sessions, handed, done, clientBin, kept, idle, i, step, newKept, newIdle, settled.error);
          StoppedSession(world, priorHistory, step, clientBin, session, newKept, newIdle, settled.error);
          UnsupportedNames(step, clientBin, session);
          return Err(settled.error), done + step, handed, kept + newKept, idle + newIdle;
        }
        SettledStep(world, old(history), sessions[..i], handed, done, clientBin, kept, idle, session, step, newKept, newIdle);
        done, handed, kept, idle := done + step, handed + [|newKept| == 1], kept + newKept, idle + newIdle;
      }
      assert sessions[..|sessions|] == sessions;
      SettledFacts(world, old(history), sessions, handed, done, clientBin, kept, idle);
    }

    /** The catch block's loop: one resume attempt per prepared session, in order. */
    method RollBack(rollbackBin: string) returns (ghost done: History, ghost results: seq<RollbackResult>)
      modifies `history, `clock, `rollbackResumed
      ensures history == old(history) + done && rollbackResumed == old(rollbackResumed) + results
      ensures RolledBack(done, rollbackBin, prepared, results)
      ensures Relinquished(history) == Relinquished(old(history)) - Recovered(results)
      ensures (forall x :: x in results ==> x.success) ==> Recovered(results) == NamesOf(prepared)
    {
      hide RolledBack, Recovered, Relinquished, NamesOf;
      done, results := [], [];
      RolledBackNothing(rollbackBin);
      assert history == old(history) + done && prepared[..0] == [];
      for i := 0 to |prepared|
        invariant history == old(history) + done && rollbackResumed == old(rollbackResumed) + results
        invariant RolledBack(done, rollbackBin, prepared[..i], results)
        invariant Relinquished(history) == Relinquished(old(history)) - Recovered(results)
      {
        var p := prepared[i];
        ghost var priorHistory := history;
        var reply := RunAgentJson(rollbackBin, p.sessionName, HandoffResume, p.displayEnvironment);
        var result := RollbackResult(p.sessionName, Accepted(reply), if Accepted(reply) then Null else Value(reply.error));
        rollbackResumed := rollbackResumed + [result];
        ghost var e := Event(p.sessionName, Run(rollbackBin, HandoffResume, p.displayEnvironment, reply));
        StepRecovers(Relinquished(old(history)), priorHistory, e, results, result);
        assert prepared[..i+1] == prepared[..i] + [p];
        RolledBackStep(done, rollbackBin, prepared[..i], results, e, p, result);
        done, results := done + [e], results + [result];
      }
      assert prepared[..|prepared|] == prepared;
      if forall x :: x in results ==> x.success {
        FullRollbackRecoversAll(done, rollbackBin, prepared, results);
      }
    }

    /** prepareRuntimeHandoffs. `attempted` and `undone` are the acts of the loop and
        of the rollback. */
    method PrepareRuntimeHandoffs(clientBin: string, rollbackBin: string, sessions: seq<string>, expectedSessions: Option<seq<string>>)
      returns (r: Result<(), HandoffError>, ghost attempted: History, ghost undone: History, ghost handed: seq<bool>,
               ghost kept: seq<PreparedHandoff>, ghost idle: seq<RetiredSession>, ghost results: seq<RollbackResult>)
      modifies `history, `clock, `prepared, `retiredIdleSessions, `unsupportedActiveSessions, `rollbackResumed
      ensures history == old(history) + attempted + undone && |handed| <= |sessions|
      ensures forall e :: e in attempted && e.act.Run? ==> !e.act.command.HandoffResume?
      ensures prepared == old(prepared) + kept && AllBacked(attempted, clientBin, kept) && ClosesOnlyIdle(attempted)
      ensures retiredIdleSessions == old(retiredIdleSessions) + idle && rollbackResumed == old(rollbackResumed) + results
      // normal return: every session settled one way, no rollback, exactly the prepared browsers given up
      ensures r.Ok? ==>
                && undone == [] && results == []
                && unsupportedActiveSessions == old(unsupportedActiveSessions)
                && Settled(world, old(history), sessions, handed, attempted, clientBin, kept, idle)
                && Relinquished(history) == Relinquished(old(history)) + NamesOf(kept)
      // throw: one resume attempt per prepared entry, and only failed attempts leave a browser given up
      ensures r.Err? ==>
                && RolledBack(undone, rollbackBin, prepared, results)
                && Relinquished(history) == Relinquished(old(history)) + NamesOf(kept) - Recovered(results)
      ensures r.Err? && old(prepared) == [] && (forall x :: x in results ==> x.success) ==>
                Relinquished(history) == Relinquished(old(history)) - NamesOf(kept)
      ensures r.Err? && !r.error.InventoryChanged? ==> |handed| < |sessions| && StoppedAt(world, old(history), sessions, handed, attempted, clientBin, kept, idle, r.error)
      ensures r == Err(InventoryChanged) <==> expectedSessions.Some? && multiset(expectedSessions.value) != multiset(sessions)
      ensures r == Err(InventoryChanged) ==> attempted == [] && kept == []
    {
      hide RolledBack, Recovered, Relinquished, Settled, StoppedAt, AllBacked, NamesOf, ClosesOnlyIdle;
      attempted, undone, handed, kept, idle, results := [], [], [], [], [], [];
      NothingKept(clientBin);
      assert history == old(history) + attempted && prepared == old(prepared) + kept;
      if expectedSessions.Some? && multiset(expectedSessions.value) != multiset(sessions) {
        r := Err(InventoryChanged);
      } else {
        r, attempted, handed, kept, idle := PrepareEach(clientBin, rollbackBin, sessions);
        if r.Err? {
          StoppedFacts(world, old(history), sessions, handed, attempted, clientBin, kept, idle, r.error);
        }
      }
      if r.Err? {
        undone, results := RollBack(rollbackBin);
        assert old(prepared) == [] ==> prepared == kept;
      }
    }

    /** removeVerifiedRuntimeHandoffRecord: deletes a record only when it carries
        the identity of the given handoff. */
    method RemoveVerifiedRecord(p: PreparedHandoff) returns (r: Result<bool, HandoffError>, ghost done: History)
      modifies `history, `clock
      ensures history == old(history) + done && For(done, p.sessionName) && HandsOff(done)
      ensures r.Ok? <==> RecordSettled(done, p)
      ensures r.Ok? ==> (r.value <==> Truthy(p.handoffPath))
      ensures r.Err? ==> Evidence(r.error, p.sessionName, Some(p), done) && (r.error.RecordInvalid? || r.error.RecordChanged?)
      ensures r.Err? ==> forall e :: e in done ==> !e.act.RemoveRecord?
    {
      done := [];
      if !Truthy(p.handoffPath) {
        return Ok(false), done;
      }
      var file := world.record(history, p.handoffPath.v);
      Note(p.sessionName, ReadRecord(p.handoffPath.v, file));
      done := [Event(p.sessionName, ReadRecord(p.handoffPath.v, file))];
      match file
      case Missing =>
        r := Ok(true);
      case Unparsable =>
        r := Err(RecordInvalid(p.sessionName));
      case Parsed(fields) =>
        if !SameRecord(IdentityOf(fields), p) {
          return Err(RecordChanged(p.sessionName)), done;
        }
        Note(p.sessionName, RemoveRecord(p.handoffPath.v));
        done := done + [Event(p.sessionName, RemoveRecord(p.handoffPath.v))];
        r := Ok(true);
    }

    /** Up to three resume commands, stopping at the first accepted one. */
    method AttemptResume(installBin: string, p: PreparedHandoff) returns (reply: Reply, ghost done: History)
      modifies `history, `clock
      ensures history == old(history) + done && Attempts(done, installBin, p)
      ensures Last(done, p.sessionName, Run(installBin, HandoffResume, p.displayEnvironment, reply))
    {
      hide Count, Accepted;
      done := [];
      CountNone(p.sessionName);
      assert history == old(history) + done;
      reply := RunAgentJson(installBin, p.sessionName, HandoffResume, p.displayEnvironment);
      ghost var e := Event(p.sessionName, Run(installBin, HandoffResume, p.displayEnvironment, reply));
      CountStep([], e, p.sessionName, HandoffResume);
      done := [] + [e];
      var attempt := 1;
      while attempt < RESUME_ATTEMPTS && !Accepted(reply)
        invariant 1 <= attempt <= RESUME_ATTEMPTS
        invariant history == old(history) + done && For(done, p.sessionName)
        invariant forall e :: e in done ==>
                    e.act.Sleep? || (e.act.Run? && e.act.command.HandoffResume? && e.act.bin == installBin && e.act.env == p.displayEnvironment)
        invariant Count(done, p.sessionName, HandoffResume) == attempt
        invariant |done| > 0 && done[|done|-1] == Event(p.sessionName, Run(installBin, HandoffResume, p.displayEnvironment, reply))
        invariant forall e :: e in done[..|done|-1] && e.act.Run? ==> !Accepted(e.act.reply)
      {
        Note(p.sessionName, Sleep(RESUME_BACKOFF_MS));
        ghost var pause := Event(p.sessionName, Sleep(RESUME_BACKOFF_MS));
        CountStep(done, pause, p.sessionName, HandoffResume);
        ghost var prior := done;
        done := done + [pause];
        reply := RunAgentJson(installBin, p.sessionName, HandoffResume, p.displayEnvironment);
        e := Event(p.sessionName, Run(installBin, HandoffResume, p.displayEnvironment, reply));
        CountStep(done, e, p.sessionName, HandoffResume);
        assert (done + [e])[..|done + [e]|-1] == done && prior == prior[..|prior|-1] + [prior[|prior|-1]];
        done := done + [e];
        attempt := attempt + 1;
      }
    }

    /** Terminates the daemon that still points at a dropped endpoint, if it is live. */
    method StopDaemon(p: PreparedHandoff, existingPid: Js<int>) returns (r: Result<(), HandoffError>, ghost done: History)
      requires StaleEndpointCandidate(p)
      modifies `history, `clock
      ensures history == old(history) + done && For(done, p.sessionName) && Careful(done, p, existingPid)
      ensures forall e :: e in done ==> !e.act.Run?
      ensures r.Ok? ==> DaemonStopped(done, p.sessionName, existingPid)
      ensures r.Err? ==> Evidence(r.error, p.sessionName, Some(p), done) && Refusal(r.error)
    {
      hide StaleEndpointCandidate, Evidence, OnlyWaits, Careful, For, DaemonStopped, Waited, WaitFailed;
      var live, probed := ProcessIsLive(p.sessionName, existingPid);
      done := probed;
      if !live {
        NothingToStop(p, existingPid, probed);
        return Ok(()), done;
      }
      var delivered := SignalProcess(p.sessionName, existingPid.v, SIGTERM);
      ghost var sent := Event(p.sessionName, SendSignal(existingPid.v, SIGTERM, delivered));
      ghost var head := [probed[0], sent];
      done := head;
      TerminationActs(p, existingPid, probed[0], sent);
      if !delivered {
        EvidenceAt(SignalFailed(p.sessionName), p.sessionName, Some(p), done);
        return Err(SignalFailed(p.sessionName)), done;
      }
      ghost var waited;
      r, waited := WaitForDaemonExit(p.sessionName, existingPid);
      StoppingParts(p, existingPid, head, waited);
      done := head + waited;
      if r.Err? {
        PlainEvidence(r.error, p.sessionName, Some(p), waited);
        EvidenceGrows(r.error, p.sessionName, Some(p), head, waited);
      }
    }

    /** The exit for an attached external endpoint that no longer answers: drop the
        record and stop the daemon that still points at it. */
    method DropStaleEndpoint(p: PreparedHandoff, existingPid: Js<int>) returns (r: Result<ResumedHandoff, HandoffError>, ghost done: History)
      requires StaleEndpointCandidate(p)
      modifies `history, `clock
      ensures history == old(history) + done && For(done, p.sessionName) && Careful(done, p, existingPid)
      ensures forall e :: e in done ==> !e.act.Run?
      ensures r.Ok? ==> r.value == DroppedEntry(p) && exists n: nat :: DroppedAt(done, p, existingPid, n)
      ensures r.Err? ==> Evidence(r.error, p.sessionName, Some(p), done) && Refusal(r.error)
    {
      hide Evidence, For, Careful, RecordSettled, DaemonStopped, DroppedAt;
      var removed, removing := RemoveVerifiedRecord(p);
      done := removing;
      if removed.Err? {
        CarefulWithout(removing, p, existingPid);
        return Err(removed.error), done;
      }
      SettledRecord(removing, p, existingPid);
      var stopped, stopping := StopDaemon(p, existingPid);
      ForConcat(removing, stopping, p.sessionName);
      CarefulConcat(removing, stopping, p, existingPid);
      done := removing + stopping;
      if stopped.Err? {
        EvidenceGrows(stopped.error, p.sessionName, Some(p), removing, stopping);
        return Err(stopped.error), done;
      }
      DroppedParts(removing, stopping, p, existingPid);
      r := Ok(ResumedHandoff(
        p.sessionName, Null, Null, false, true, p.cdpUrl, OrNull(p.runtimeProfile), Value(0), removed.value, Null, false));
    }

    /** Whether the session's daemon and the browser it answers for are both live. */
    method SeesBoth(p: PreparedHandoff, b: BrowserRecord, existingPid: Js<int>) returns (both: bool, ghost done: History)
      modifies `history, `clock
      ensures history == old(history) + done && For(done, p.sessionName) && OnlyWaits(done)
      ensures both ==>
                && Positive(existingPid) && Active(b, p, DecidedByProcess(b, p))
                && done == [Event(p.sessionName, Probe(existingPid.v, true))]
                     + if DecidedByProcess(b, p) then [Event(p.sessionName, Probe(EffectivePid(b, p).v, true))] else []
      ensures !both ==> NotAdopted(done, p, b, existingPid)
      ensures WillReadopt(world, old(history), p, existingPid, b) ==> both
    {
      var live, probed := ProcessIsLive(p.sessionName, existingPid);
      done := probed;
      both := false;
      if live {
        var browserLive := false;
        if DecidedByProcess(b, p) {
          ghost var probedBrowser;
          browserLive, probedBrowser := ProcessIsLive(p.sessionName, EffectivePid(b, p));
          done := probed + probedBrowser;
        }
        both := Active(b, p, browserLive);
      }
    }

    /** The recovery branch: a service browser already answers for the session. Its
        identity must be the prepared one; with a live daemon and an active browser it
        needs no resume. */
    method Readopt(p: PreparedHandoff, b: BrowserRecord, existingPid: Js<int>)
      returns (r: Result<Option<ResumedHandoff>, HandoffError>, ghost done: History)
      requires Normalised(p) && Matches(b, p)
      modifies `history, `clock
      ensures history == old(history) + done && For(done, p.sessionName) && HandsOff(done) && Careful(done, p, existingPid)
      ensures r.Ok? && r.value.Some? ==> r.value.value == AdoptedEntry(p, b, existingPid) && AdoptedBy(done, p, b, existingPid)
      ensures r == Ok(None) ==> PassedOver(done, p, Some(b), existingPid)
      ensures r.Err? ==> r.error.RecordInvalid? || r.error.RecordChanged? || r.error == FoundDifferentPid(p.sessionName)
      ensures r.Err? && r.error.FoundDifferentPid? <==> PidMissing(b, p)
      ensures r.Err? && r.error.FoundDifferentPid? ==> done == []
      ensures r.Err? && !r.error.FoundDifferentPid? ==> Evidence(r.error, p.sessionName, Some(p), done)
      ensures WillReadopt(world, old(history), p, existingPid, b) && r.Ok? ==> r.value.Some?
    {
      hide Evidence, For, OnlyWaits, HandsOff, Careful, RecordSettled, NotAdopted, Active, DecidedByProcess, EffectivePid, AdoptedBy;
      RecoveryThrowsExactly(b, p);
      done := [];
      if p.browserPid != Null && b.pid != Null && b.pid != p.browserPid {
        NothingIsCareful(p, existingPid);
        return Err(FoundDifferentPid(p.sessionName)), done;
      }
      if Truthy(p.cdpUrl) && b.cdpEndpoint != p.cdpUrl {
        return Err(FoundDifferentEndpoint(p.sessionName)), done;
      }
      var both, looking := SeesBoth(p, b, existingPid);
      LookingOnly(looking, p, existingPid);
      done := looking;
      if !both {
        return Ok(None), done;
      }
      var removed, removing := RemoveVerifiedRecord(p);
      ForConcat(looking, removing, p.sessionName);
      HandsOffConcat(looking, removing);
      done := looking + removing;
      if removed.Err? {
        CarefulWithout(removing, p, existingPid);
        CarefulConcat(looking, removing, p, existingPid);
        EvidenceGrows(removed.error, p.sessionName, Some(p), looking, removing);
        return Err(removed.error), done;
      }
      SettledRecord(removing, p, existingPid);
      CarefulConcat(looking, removing, p, existingPid);
      AdoptedParts(looking, removing, p, b, existingPid);
      r := Ok(Some(ResumedHandoff(
        p.sessionName, OrNull(OrElse(b.pid, p.browserPid)), Undefined, false, false, OrNull(b.cdpEndpoint),
        OrNull(OrElse(b.profileId, p.runtimeProfile)), b.validTabs, removed.value, existingPid, true)));
    }

    /** The exit that actually resumes: the accepted reply must carry the prepared
        identity. It succeeds exactly on such a reply; `attempts` are the commands. */
    method ResumeAndVerify(installBin: string, p: PreparedHandoff)
      returns (r: Result<ResumedHandoff, HandoffError>, ghost done: History, ghost attempts: History)
      requires Normalised(p)
      modifies `history, `clock
      ensures history == old(history) + done && Attempts(attempts, installBin, p) && attempts <= done
      ensures r.Ok? <==> Verified(p, attempts[|attempts|-1].act.reply)
      ensures r.Ok? ==> ResumedBy(done, installBin, p, r.value) && Fresh(r.value) && |done| == |attempts| + 1
      ensures r.Err? ==> done == attempts && Evidence(r.error, p.sessionName, Some(p), done) && Refusal(r.error)
    {
      hide Attempts, Accepted, StaleAttachedPidDropped, Evidence;
      var reply;
      reply, attempts := AttemptResume(installBin, p);
      AttemptsEnd(attempts, installBin, p);
      done := attempts;
      if !Accepted(reply) {
        EvidenceAt(ResumeFailed(p.sessionName), p.sessionName, Some(p), done);
        return Err(ResumeFailed(p.sessionName)), done, attempts;
      }
      var data := reply.data;
      var stale := StaleAttachedPidDropped(p, data);
      if p.browserPid != Null && data.browserPid != p.browserPid && !stale {
        EvidenceAt(ChangedPid(p.sessionName), p.sessionName, Some(p), done);
        return Err(ChangedPid(p.sessionName)), done, attempts;
      }
      if Truthy(p.cdpUrl) && data.cdpUrl != p.cdpUrl {
        EvidenceAt(ChangedEndpoint(p.sessionName), p.sessionName, Some(p), done);
        return Err(ChangedEndpoint(p.sessionName)), done, attempts;
      }
      var daemonPid := ReadRuntimePid(p.sessionName);
      done := attempts + [Event(p.sessionName, ReadPidFile(daemonPid))];
      assert done[..|done|-1] == attempts;
      r := Ok(ResumedHandoff(
        p.sessionName, if stale then p.browserPid else OrNull(data.browserPid), OrNull(data.browserPid), stale, false,
        OrNull(data.cdpUrl), OrNull(data.runtimeProfile), OrNull(data.targetsReattached), data.retryRecordRemoved, daemonPid, false));
    }

    /** The second half of an iteration: adopt the browser that already answers, or
        resume. `head` is what the iteration has observed so far. */
    method AdoptOrResume(installBin: string, p: PreparedHandoff, existingPid: Js<int>, existing: Readback, ghost head: History, ghost steady: bool)
      returns (r: Result<ResumedHandoff, HandoffError>, ghost tail: History)
      requires Normalised(p) && !LacksCustody(p) && Asked(head, installBin, p) && |head| == LookLength(p) && !EndpointDown(head, installBin, p)
      requires head[0].act.pid == existingPid && existing == ReadbackOf(head[1].act.reply, p.sessionName, Some(p))
      requires steady ==> existing.success && existing.browser.Some? && WillReadopt(world, history, p, existingPid, existing.browser.value)
      modifies `history, `clock
      ensures history == old(history) + tail && WithinLimits(head + tail, p)
      ensures r.Ok? ==> Conserves(p, r.value) && Supported(head + tail, installBin, p, r.value)
      ensures r.Err? ==> RefusedBy(head + tail, p, r.error) && Refusal(r.error)
      ensures steady ==> Untouched(p.sessionName, head + tail, r)
    {
      hide For, HandsOff, Careful, WithinLimits, Conserves, Supported, RefusedBy, LacksCustody, ReadbackOf, WillReadopt, Evidence;
      hide AdoptedBy, AdoptedEntry, PassedOver, Attempts, Verified, ResumedBy, Fresh, Undisturbed, EndpointDown, Matches, Normalised;
      ghost var passing := [];
      if existing.success && existing.browser.Some? {
        OfferMatches(head[1].act.reply, p);
        var adopted, adopting := Readopt(p, existing.browser.value, existingPid);
        if adopted.Err? || adopted.value.Some? {
          AdoptedOutcome(head, adopting, installBin, p, adopted);
          MissingPidWillNot(world, old(history), p, existingPid, existing.browser.value);
          r := if adopted.Err? then Err(adopted.error) else Ok(adopted.value.value);
          return r, adopting;
        }
        passing := adopting;
      } else {
        NothingPassed(p, existingPid);
      }
      ghost var resuming, attempts;
      r, resuming, attempts := ResumeAndVerify(installBin, p);
      FreshOutcome(head, passing, resuming, installBin, p, r);
      tail := passing + resuming;
    }

    /** One iteration of the resume loop, once display custody is not in question. */
    method ResumeWithCustody(installBin: string, p: PreparedHandoff) returns (r: Result<ResumedHandoff, HandoffError>, ghost done: History)
      requires Normalised(p) && !LacksCustody(p)
      modifies `history, `clock
      ensures history == old(history) + done && WithinLimits(done, p)
      ensures r.Ok? ==> Conserves(p, r.value) && Supported(done, installBin, p, r.value)
      ensures r.Err? ==> RefusedBy(done, p, r.error) && Refusal(r.error)
      ensures Durable(world, old(history), installBin, p) ==> Untouched(p.sessionName, done, r)
    {
      hide For, Careful, WithinLimits, Conserves, Supported, RefusedBy, LacksCustody, ReadbackOf, WillReadopt, Evidence, Durable, Untouched;
      hide DroppedEntry, DroppedAt, Looks, Normalised;
      var existingPid := ReadRuntimePid(p.sessionName);
      var existing, asked := ServiceBrowserForSession(installBin, p.sessionName, Some(p), p.displayEnvironment);
      ghost var head := [Event(p.sessionName, ReadPidFile(existingPid))] + asked;
      HeadIsQuiet(p.sessionName, head[0], asked);
      assert history == old(history) + head;
      ghost var steady := Durable(world, old(history), installBin, p);
      if steady {
        DurableReadback(world, old(history), installBin, p, existingPid, existing);
      }
      if StaleEndpointCandidate(p) {
        var reachable := world.reachable(history, p.cdpUrl.v);
        ghost var probe := Event(p.sessionName, ProbeEndpoint(p.cdpUrl.v, reachable));
        Note(p.sessionName, ProbeEndpoint(p.cdpUrl.v, reachable));
        HeadWithProbe(p.sessionName, head, probe);
        if steady {
          DurableReachable(world, old(history), installBin, p, head);
        }
        head := head + [probe];
        if !reachable {
          ghost var tail;
          r, tail := DropStaleEndpoint(p, existingPid);
          done := head + tail;
          DroppedOutcome(head, tail, installBin, p, r);
          return;
        }
      }
      assert history == old(history) + head;
      if steady {
        DurableReadoption(world, old(history), installBin, p, head, existingPid, existing.browser.value);
      }
      ghost var tail;
      r, tail := AdoptOrResume(installBin, p, existingPid, existing, head, steady);
      done := head + tail;
    }

    /** One iteration of the resume loop. */
    method ResumeSession(installBin: string, p: PreparedHandoff) returns (r: Result<ResumedHandoff, HandoffError>, ghost done: History)
      requires Normalised(p)
      modifies `history, `clock
      ensures history == old(history) + done && WithinLimits(done, p)
      ensures r.Ok? ==> Conserves(p, r.value) && Supported(done, installBin, p, r.value)
      ensures r.Err? ==> RefusedBy(done, p, r.error) && !r.error.FoundDifferentEndpoint?
      ensures Durable(world, old(history), installBin, p) ==> Untouched(p.sessionName, done, r)
      ensures (r.Err? && r.error.LacksDisplayCustody?) <==> LacksCustody(p)
      ensures LacksCustody(p) ==> done == []
    {
      if p.host == Value("attached_existing") && p.browserPid.Value? && p.displayEnvironment.Undefined? {
        r, done := Err(LacksDisplayCustody(p.sessionName)), [];
      } else {
        hide WithinLimits, Conserves, Supported, RefusedBy, Durable, Untouched, Normalised;
        r, done := ResumeWithCustody(installBin, p);
      }
    }

    /** resumeRuntimeHandoffs: every prepared handoff in order, stopping at the first refusal. */
    method ResumeRuntimeHandoffs(installBin: string)
      returns (r: Result<(), HandoffError>, ghost done: History, ghost adopted: seq<ResumedHandoff>)
      requires forall p :: p in prepared ==> Normalised(p)
      modifies `history, `clock, `resumed
      ensures history == old(history) + done && resumed == old(resumed) + adopted
      ensures |adopted| <= |prepared| && forall i :: 0 <= i < |adopted| ==> Conserves(prepared[i], adopted[i])
      ensures r.Ok? ==> |adopted| == |prepared| && Restored(prepared, done, installBin, adopted)
      ensures r.Err? ==>
                && |adopted| < |prepared| && RefusedAt(prepared, done, installBin, adopted, r.error)
                && !r.error.FoundDifferentEndpoint?
                && forall e :: e in done ==> e.session in Names(prepared[..|adopted|+1])
      ensures forall s :: Count(done, s, HandoffResume) <= RESUME_ATTEMPTS * multiset(Names(prepared))[s]
      ensures forall s :: AllDurable(world, old(history), installBin, prepared, s) ==> Undisturbed(done, s)
      ensures forall i :: 0 <= i < |adopted| && AllDurable(world, old(history), installBin, prepared, prepared[i].sessionName) ==> adopted[i].alreadyResumed
      ensures Distinct(prepared) ==> forall i :: 0 <= i < |adopted| && Fresh(adopted[i]) ==> ResumedAndLeftAlone(done, installBin, prepared[i])
    {
      hide Count, Supported, ResumedAndLeftAlone, Durable, AllDurable, Undisturbed, Conserves, Distinct, Passed, Normalised;
      hide Restored, RefusedBy, RefusedAt, WithinLimits, LacksCustody, Untouched;
      r, done, adopted := Ok(()), [], [];
      assert history == old(history) + done && resumed == old(resumed) + adopted && prepared[..0] == [];
      PassedNothing(world, old(history), installBin, prepared[..0]);
      for i := 0 to |prepared|
        invariant history == old(history) + done && resumed == old(resumed) + adopted && |adopted| == i
        invariant Passed(world, old(history), installBin, prepared[..i], done, adopted)
      {
        var p := prepared[i];
        assert p in prepared && prepared[..i+1] == prepared[..i] + [p];
        var resumedOne, step := ResumeSession(installBin, p);
        LimitFacts(step, p);
        if resumedOne.Err? {
          RefusedStep(world, old(history), installBin, prepared, i, done, adopted, step, resumedOne);
          return Err(resumedOne.error), done + step, adopted;
        }
        resumed := resumed + [resumedOne.value];
        PassedStep(world, old(history), installBin, prepared, i, done, adopted, step, resumedOne.value);
        done, adopted := done + step, adopted + [resumedOne.value];
      }
      assert prepared[..|prepared|] == prepared;
      PassedFacts(world, old(history), installBin, prepared, done, adopted);
    }

    /** A whole handoff: prepare every session, let the caller replace the executable,
        resume every prepared session through the replacement. */
    method HandOff(clientBin: string, rollbackBin: string, installBin: string, sessions: seq<string>, expectedSessions: Option<seq<string>>)
      returns (r: Result<(), HandoffError>, ghost handed: seq<bool>, ghost attempted: History, ghost restored: History)
      requires prepared == [] && retiredIdleSessions == [] && resumed == [] && AllDifferent(sessions)
      modifies this
      ensures r.Ok? ==>
                && |handed| == |sessions|
                && Settled(world, old(history), sessions, handed, attempted, clientBin, prepared, retiredIdleSessions)
                && Restored(prepared, restored, installBin, resumed)
                && Names(prepared) == Pick(sessions, handed, true)
                && RetiredNames(retiredIdleSessions) == Pick(sessions, handed, false)
                && AllBacked(attempted, clientBin, prepared)
                && |resumed| == |prepared| && (forall i :: 0 <= i < |prepared| ==> Conserves(prepared[i], resumed[i]))
                && (forall i :: 0 <= i < |resumed| && Fresh(resumed[i]) ==> resumed[i].sessionName !in Relinquished(history))
                && HandoffsAlreadyResumed(prepared, resumed)
    {
      hide AllBacked, Conserves, Settled, Restored, RefusedAt, Relinquished, HandoffsAlreadyResumed, Distinct, ResumedAndLeftAlone;
      hide AllDurable, Undisturbed, Count, RolledBack, Recovered, StoppedAt, Normalised, Fresh;
      ghost var undone, kept, idle, results;
      restored := [];
      r, attempted, undone, handed, kept, idle, results := PrepareRuntimeHandoffs(clientBin, rollbackBin, sessions, expectedSessions);
      assert r.Ok? ==> prepared == kept && retiredIdleSessions == idle;
      if r.Ok? {
        SettledFacts(world, old(history), sessions, handed, attempted, clientBin, prepared, retiredIdleSessions);
        BackedIsNormalised(attempted, clientBin, prepared);
        ghost var before, adopted := history, [];
        r, restored, adopted := ResumeRuntimeHandoffs(installBin);
        assert resumed == adopted;
        if r.Ok? {
          CompletedHandOff(sessions, handed, before, restored, installBin, prepared, adopted);
        }
      }
    }

    /** discoverPreparedRuntimeHandoffs: one entry per candidate session that left a
        record, or a refusal at the first bad name, file or identity. */
    method DiscoverPrepared(sessions: seq<string>)
      returns (r: Result<seq<PreparedHandoff>, HandoffError>, ghost done: History, ghost files: seq<RecordFile>, ghost pids: seq<Js<int>>)
      modifies `history, `clock
      ensures history == old(history) + done && HandsOff(done) && |files| == |pids| <= |sessions|
      ensures forall i :: 0 <= i < |files| ==> Readable(sessions[i], files[i], pids[i], done)
      ensures r.Ok? ==> |files| == |sessions| && r.value == HandoffsFound(sessions, files, pids)
      ensures r.Err? ==> |files| < |sessions| && Unreadable(sessions[|files|], r.error, done)
    {
      hide ValidSessionName, FromRecord, HandoffsFound, RecordPath, Readable;
      done, files, pids := [], [], [];
      var handoffs: seq<PreparedHandoff> := [];
      FoundNothing();
      assert history == old(history) + done && sessions[..0] == [];
      for i := 0 to |sessions|
        invariant history == old(history) + done && HandsOff(done)
        invariant |files| == |pids| == i && handoffs == HandoffsFound(sessions[..i], files, pids)
        invariant forall j :: 0 <= j < i ==> Readable(sessions[j], files[j], pids[j], done)
      {
        var session := sessions[i];
        assert sessions[..i+1] == sessions[..i] + [session];
        if !ValidSessionName(session) {
          return Err(InvalidSessionName(session)), done, files, pids;
        }
        var file := world.record(history, RecordPath(session));
        ghost var step := [Event(session, ReadRecord(RecordPath(session), file))];
        Note(session, ReadRecord(RecordPath(session), file));
        if file.Unparsable? {
          AllReadableLater(sessions, files, pids, done, step);
          return Err(RecordInvalid(session)), done + step, files, pids;
        }
        var daemonPid := Undefined;
        if file.Parsed? {
          if FromRecord(session, file.fields, Undefined).None? {
            AllReadableLater(sessions, files, pids, done, step);
            return Err(RecordIdentityMismatch(session)), done + step, files, pids;
          }
          daemonPid := ReadRuntimePid(session);
          FromRecordIgnoresPid(session, file.fields);
          step := step + [Event(session, ReadPidFile(daemonPid))];
          handoffs := handoffs + [FromRecord(session, file.fields, daemonPid).value];
        }
        AllReadableLater(sessions, files, pids, done, step);
        ReadableNow(session, file, daemonPid, done, step);
        FoundStep(sessions[..i], files, pids, session, file, daemonPid);
        done, files, pids := done + step, files + [file], pids + [daemonPid];
      }
      assert sessions[..|sessions|] == sessions;
      r := Ok(handoffs);
    }

    /** Recovery up to the list it will resume: the journal's handoffs merged with those
        found on disk. */
    method RecoverPrepared(recorded: seq<PreparedHandoff>, candidates: seq<string>)
      returns (r: Result<(), HandoffError>, ghost done: History, ghost discovered: seq<PreparedHandoff>)
      modifies `history, `clock, `prepared
      ensures history == old(history) + done && HandsOff(done)
      ensures forall d :: d in discovered ==> d.displayEnvironment.Undefined? && Normalised(d) && d.sessionName in candidates
      ensures if r.Ok? then
                && !Conflict(recorded + discovered) && MergedWell(prepared, recorded + discovered)
                && Merged(recorded + discovered) == Ok(prepared)
              else
                && prepared == old(prepared)
                && (|| (r.error.ConflictingEvidence? && Conflict(recorded + discovered))
                    || exists s :: s in candidates && Unreadable(s, r.error, done))
      ensures r.Ok? ==> forall m :: m in prepared ==>
                (LacksCustody(m) <==>
                   && m.host == Value("attached_existing") && m.browserPid.Value?
                   && forall x :: x in recorded && x.sessionName == m.sessionName ==> x.displayEnvironment.Undefined?)
      ensures r.Ok? && (forall x :: x in recorded ==> Normalised(x)) ==> forall m :: m in prepared ==> Normalised(m)
    {
      hide Conflict, MergedWell, Merged, Unreadable, Readable, LacksCustody, Normalised, HandsOff, HandoffsFound;
      ghost var files, pids;
      var found;
      found, done, files, pids := DiscoverPrepared(candidates);
      discovered := [];
      if found.Err? {
        return Err(found.error), done, discovered;
      }
      discovered := found.value;
      FoundLackDisplay(candidates, files, pids);
      MergeMeans(recorded + discovered);
      var merged := MergePreparedHandoffs(recorded, found.value);
      if merged.Err? {
        ConflictIsNamed(recorded + discovered);
        return Err(merged.error), done, discovered;
      }
      prepared := merged.value;
      forall m | m in prepared
        ensures LacksCustody(m) <==>
                  && m.host == Value("attached_existing") && m.browserPid.Value?
                  && forall x :: x in recorded && x.sessionName == m.sessionName ==> x.displayEnvironment.Undefined?
        ensures (forall x :: x in recorded ==> Normalised(x)) ==> Normalised(m)
      {
        MergedStands(prepared, recorded + discovered, m);
        CustodyAfterRecovery(recorded, discovered, m);
        StandsNormalised(recorded, discovered, m);
      }
      r := Ok(());
    }

    /** The resume phase of recovery: skipped when the journal's resumed list answers for
        every merged handoff, otherwise the ordinary pass over them. */
    method Recover(installBin: string, recorded: seq<PreparedHandoff>, candidates: seq<string>, recordedResumed: seq<ResumedHandoff>)
      returns (r: Result<(), HandoffError>, ghost looked: History, ghost discovered: seq<PreparedHandoff>, ghost done: History, ghost adopted: seq<ResumedHandoff>)
      requires forall x :: x in recorded ==> Normalised(x)
      modifies `history, `clock, `prepared, `resumed
      ensures history == old(history) + looked + done && HandsOff(looked)
      ensures r.Ok? ==> Merged(recorded + discovered) == Ok(prepared)
      ensures r.Ok? && HandoffsAlreadyResumed(prepared, recordedResumed) ==>
                && done == [] && adopted == []
                && resumed == if |recordedResumed| > 0 then recordedResumed else old(resumed)
      ensures r.Ok? && !HandoffsAlreadyResumed(prepared, recordedResumed) ==>
                && resumed == old(resumed) + adopted && Restored(prepared, done, installBin, adopted)
                && forall m :: m in prepared ==> !LacksCustody(m)
      ensures r.Err? ==>
                || (done == [] && resumed == old(resumed) && prepared == old(prepared))
                || (|adopted| < |prepared| && resumed == old(resumed) + adopted && RefusedAt(prepared, done, installBin, adopted, r.error))
      ensures |recordedResumed| == |recorded| && Distinct(recorded)
              && (forall i :: 0 <= i < |recorded| ==> Conserves(recorded[i], recordedResumed[i]))
              && (forall s :: s in candidates ==> s in Names(recorded)) ==>
                done == [] && adopted == []
    {
      hide HandoffsAlreadyResumed, Restored, Merged, MergedWell, Conflict, Unreadable, Normalised, LacksCustody, HandsOff, Conserves, Distinct, RefusedAt;
      hide AllDurable, Undisturbed, Count, ResumedAndLeftAlone, Fresh;
      done, adopted := [], [];
      r, looked, discovered := RecoverPrepared(recorded, candidates);
      if r.Err? {
        return;
      }
      if |recordedResumed| == |recorded| && Distinct(recorded)
         && (forall i :: 0 <= i < |recorded| ==> Conserves(recorded[i], recordedResumed[i]))
         && (forall s :: s in candidates ==> s in Names(recorded)) {
        RecoveryRecognisesCompletedPass(recorded, recordedResumed, discovered);
      }
      NoneResumed(recordedResumed);
      if |prepared| > 0 && !HandoffsAlreadyResumed(prepared, recordedResumed) {
        r, done, adopted := ResumeRuntimeHandoffs(installBin);
        if r.Ok? {
          RestoredFacts(prepared, done, installBin, adopted);
        }
      } else if |recordedResumed| > 0 {
        resumed := recordedResumed;
      }
    }

    /** A rediscovered external browser is refused exactly if its PID is recorded and the
        journal has no display environment for its session. */
    method ResumeRediscovered(installBin: string, recorded: seq<PreparedHandoff>, session: string, f: RecordFields, daemonPid: Js<int>)
      returns (r: Result<ResumedHandoff, HandoffError>)
      requires FromRecord(session, f, daemonPid).Some? && forall x :: x in recorded ==> Normalised(x)
      modifies `history, `clock
      ensures var found := FromRecord(session, f, daemonPid).value;
              if Conflict(recorded + [found]) then r.Err? && r.error.ConflictingEvidence? && history == old(history)
              else
                (r == Err(LacksDisplayCustody(session)) <==>
                  && f.host == Value("attached_existing") && found.browserPid.Value?
                  && forall x :: x in recorded && x.sessionName == session ==> x.displayEnvironment.Undefined?)
      ensures r == Err(LacksDisplayCustody(session)) ==> history == old(history)
    {
      hide Conflict, MergedWell, Merged, LacksCustody, Conserves, Supported, Durable, Untouched;
      var found := FromRecord(session, f, daemonPid).value;
      ghost var evidence := recorded + [found];
      MergeMeans(evidence);
      var merged := MergePreparedHandoffs(recorded, [found]);
      if merged.Err? {
        ConflictIsNamed(evidence);
        return Err(merged.error);
      }
      var i := Find(merged.value, session);
      NewestStands(merged.value, recorded, found, i);
      var m := merged.value[i];
      CustodyAfterRecovery(recorded, [found], m);
      StandsNormalised(recorded, [found], m);
      ghost var done;
      r, done := ResumeSession(installBin, m);
      RefusalNames(done, m, r);
    }

    /** Re-entry: a second pass over the same prepared list, whatever became of the
        first, issues no resume command for a session the first one resumed, or which
        already had its browser back. */
    method ResumeAgain(installBin: string)
      returns (first: Result<(), HandoffError>, second: Result<(), HandoffError>,
               ghost done1: History, ghost adopted1: seq<ResumedHandoff>, ghost done2: History, ghost adopted2: seq<ResumedHandoff>)
      requires (forall p :: p in prepared ==> Normalised(p)) && Distinct(prepared)
      modifies `history, `clock, `resumed
      ensures resumed == old(resumed) + adopted1 + adopted2 && |adopted1| <= |prepared| && |adopted2| <= |prepared|
      ensures forall i :: 0 <= i < |adopted1| && Durable(world, old(history), installBin, prepared[i]) ==>
                adopted1[i].alreadyResumed && Count(done1, prepared[i].sessionName, HandoffResume) == 0
      ensures forall i :: 0 <= i < |adopted1| && Steady(world, old(history), installBin, prepared[i], adopted1[i]) ==>
                && Count(done2, prepared[i].sessionName, HandoffResume) == 0
                && (i < |adopted2| ==>
                      && adopted2[i].alreadyResumed
                      && adopted2[i].sessionName == adopted1[i].sessionName
                      && (prepared[i].browserPid.Value? ==> adopted2[i].browserPid == adopted1[i].browserPid)
                      && (Truthy(prepared[i].cdpUrl) ==> adopted2[i].cdpUrl == adopted1[i].cdpUrl))
    {
      hide Durable, Restored, RefusedAt, Normalised, Undisturbed, Count, ResumedAndLeftAlone, ResumeRestores;
      first, done1, adopted1 := ResumeRuntimeHandoffs(installBin);
      ghost var middle := history;
      second, done2, adopted2 := ResumeRuntimeHandoffs(installBin);
      forall i | 0 <= i < |adopted1| && Durable(world, old(history), installBin, prepared[i])
        ensures adopted1[i].alreadyResumed && Undisturbed(done1, prepared[i].sessionName)
        ensures Count(done1, prepared[i].sessionName, HandoffResume) == 0
      {
        OnlyOneOfThatName(world, old(history), installBin, prepared, i);
        NoResumeWhenUndisturbed(done1, prepared[i].sessionName);
      }
      forall i | 0 <= i < |adopted1| && Steady(world, old(history), installBin, prepared[i], adopted1[i])
        ensures Count(done2, prepared[i].sessionName, HandoffResume) == 0
        ensures i < |adopted2| ==> adopted2[i].alreadyResumed
      {
        if Durable(world, old(history), installBin, prepared[i]) {
          DurableLater(world, old(history), done1, installBin, prepared[i]);
        } else {
          FreshIsDurable(world, old(history), done1, installBin, prepared[i]);
        }
        OnlyOneOfThatName(world, middle, installBin, prepared, i);
        NoResumeWhenUndisturbed(done2, prepared[i].sessionName);
      }
    }
  }
}
