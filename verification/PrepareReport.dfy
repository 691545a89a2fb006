/** What the acts of the prepare phase say about its two lists, session by session,
    and what a rollback gives back (scripts/publish-local-dashboard-runtime.js:656-773). */
module PrepareReport {
  import opened JsValues
  import opened HandoffIdentity
  import opened HandoffWorld
  import opened HandoffReport

  // Retiring a daemon that prepared but does not exit

  /** How many acts prove that `p` may be retired: its record, and its browser if one is recorded. */
  function BoundaryLength(p: PreparedHandoff): nat {
    if p.browserPid.Value? then 2 else 1
  }

  /** The record on disk describes this very handoff, and its browser is there. */
  ghost predicate BoundaryActs(acts: History, p: PreparedHandoff) {
    && |acts| == BoundaryLength(p) && Truthy(p.handoffPath)
    && acts[0].session == p.sessionName && acts[0].act.ReadRecord? && acts[0].act.path == p.handoffPath.v
    && acts[0].act.file.Parsed? && DescribesPrepared(acts[0].act.file.fields, p)
    && (p.browserPid.Value? ==> p.browserPid.v > 0 && acts[1] == Event(p.sessionName, ProbeRaw(p.browserPid.v, true)))
  }

  /** SIGTERM first and once; SIGKILL only after a delivered SIGTERM and a full wait
      at whose end the process was still there. */
  ghost predicate SignalsInOrder(w: World, h: History, done: History, session: string, pid: int) {
    forall k :: 0 <= k < |done| && done[k].act.SendSignal? ==> SignalAllowed(w, h, done, session, pid, k)
  }

  ghost predicate SignalAllowed(w: World, h: History, done: History, session: string, pid: int, k: nat)
    requires k < |done| && done[k].act.SendSignal?
  {
    && done[k].act.target == pid
    && if k == 0 then done[k].act.signal == SIGTERM
       else
         && done[k].act.signal == SIGKILL
         && done[0] == Event(session, SendSignal(pid, SIGTERM, true))
         && OnlyWaits(done[1..k]) && done[k-1] == Event(session, ProbeRaw(pid, true))
         && Duration(w, h + done[..1], done[1..k]) >= RETIRE_TIMEOUT_MS
  }

  ghost predicate KilledAt(acts: History, session: string, pid: int, k: nat) {
    && 1 < k < |acts| && OnlyWaits(acts[1..k]) && acts[k-1] == Event(session, ProbeRaw(pid, true))
    && acts[k] == Event(session, SendSignal(pid, SIGKILL, true)) && OnlyWaits(acts[k+1..])
  }

  /** The signal that ended the process, after which it was seen absent. */
  ghost predicate Signalled(acts: History, session: string, pid: int, how: string) {
    && |acts| > 1 && acts[0] == Event(session, SendSignal(pid, SIGTERM, true))
    && Last(acts, session, ProbeRaw(pid, false))
    && if how == "SIGTERM" then OnlyWaits(acts[1..])
       else how == "SIGKILL" && exists k: nat :: KilledAt(acts, session, pid, k)
  }

  /** ... and the retained browser survived it. */
  ghost predicate SignalledSafely(acts: History, p: PreparedHandoff, how: string)
    requires Positive(p.daemonPid)
  {
    if p.browserPid.Value? then
      && Last(acts, p.sessionName, ProbeRaw(p.browserPid.v, true))
      && Signalled(acts[..|acts|-1], p.sessionName, p.daemonPid.v, how)
    else Signalled(acts, p.sessionName, p.daemonPid.v, how)
  }

  /** A whole retirement: boundary, presence, and signals if there was still a process. */
  ghost predicate Retirement(acts: History, p: PreparedHandoff, how: string)
    requires Positive(p.daemonPid)
  {
    var n := BoundaryLength(p);
    && |acts| > n && BoundaryActs(acts[..n], p)
    && if how == "already_exited" then acts[n..] == [Event(p.sessionName, ProbeRaw(p.daemonPid.v, false))]
       else acts[n] == Event(p.sessionName, ProbeRaw(p.daemonPid.v, true)) && SignalledSafely(acts[n+1..], p, how)
  }

  /** Signals only past the boundary and a positive look at the daemon, and in order. */
  ghost predicate SignalsBehindBoundary(w: World, h: History, done: History, p: PreparedHandoff)
    requires Positive(p.daemonPid)
  {
    var n := BoundaryLength(p);
    || HandsOff(done)
    || (&& |done| > n && BoundaryActs(done[..n], p) && done[n] == Event(p.sessionName, ProbeRaw(p.daemonPid.v, true))
        && SignalsInOrder(w, h + done[..n+1], done[n+1..], p.sessionName, p.daemonPid.v))
  }

  lemma BoundaryIsHandsOff(acts: History, p: PreparedHandoff)
    requires BoundaryActs(acts, p)
    ensures HandsOff(acts) && For(acts, p.sessionName) && (p.browserPid.Value? ==> Positive(p.browserPid))
  {}

  lemma NothingToVerify(p: PreparedHandoff)
    requires !Truthy(p.handoffPath)
    ensures For([], p.sessionName) && HandsOff([]) && !BoundaryActs([], p)
    ensures Evidence(NoRetirementBoundary(p.sessionName), p.sessionName, Some(p), [])
  {}

  /** What reading the record proves. */
  lemma ReadProves(p: PreparedHandoff, file: RecordFile)
    requires Truthy(p.handoffPath)
    ensures var read := [Event(p.sessionName, ReadRecord(p.handoffPath.v, file))];
            && For(read, p.sessionName) && HandsOff(read)
            && (file.Missing? ==> Evidence(NoRetirementBoundary(p.sessionName), p.sessionName, Some(p), read))
            && (file.Unparsable? ==> Evidence(RecordInvalid(p.sessionName), p.sessionName, Some(p), read))
            && (file.Parsed? && !DescribesPrepared(file.fields, p) ==> Evidence(DescriptorMismatch(p.sessionName), p.sessionName, Some(p), read))
            && (BoundaryActs(read, p) <==> file.Parsed? && DescribesPrepared(file.fields, p) && !p.browserPid.Value?)
  {
    hide DescribesPrepared;
  }

  /** What looking for the recorded browser then proves. */
  lemma PresenceProves(p: PreparedHandoff, read: Event, probed: History, present: bool)
    requires Truthy(p.handoffPath) && p.browserPid.Value? && read.session == p.sessionName && read.act.ReadRecord? && read.act.path == p.handoffPath.v
    requires read.act.file.Parsed? && DescribesPrepared(read.act.file.fields, p)
    requires if Positive(p.browserPid) then probed == [Event(p.sessionName, ProbeRaw(p.browserPid.v, present))] else !present && probed == []
    ensures var done := [read] + probed;
            && For(done, p.sessionName) && HandsOff(done) && (BoundaryActs(done, p) <==> present)
            && (!present ==> Evidence(DescriptorMismatch(p.sessionName), p.sessionName, Some(p), done))
  {
    hide DescribesPrepared;
  }

  /** Boundary, presence and what followed put together. */
  lemma RetirementParts(proof: History, probe: Event, rest: History, p: PreparedHandoff)
    requires Positive(p.daemonPid) && BoundaryActs(proof, p)
    ensures var done := proof + [probe] + rest; var n := BoundaryLength(p);
            && |done| > n && done[..n] == proof && done[n] == probe && done[n+1..] == rest && done[..n+1] == proof + [probe]
  {
    var done := proof + [probe] + rest;
    assert done[..|proof|] == proof && done[|proof|+1..] == rest && done[..|proof|+1] == proof + [probe];
  }

  lemma TermActs(w: World, h: History, p: PreparedHandoff, term: Event, waited: History)
    requires p.daemonPid.Value? && term == Event(p.sessionName, SendSignal(p.daemonPid.v, SIGTERM, true))
    requires For(waited, p.sessionName) && OnlyWaits(waited) && Last(waited, p.sessionName, ProbeRaw(p.daemonPid.v, false))
    ensures var done := [term] + waited;
            && For(done, p.sessionName) && (forall e :: e in done ==> !e.act.Run?)
            && SignalsInOrder(w, h, done, p.sessionName, p.daemonPid.v)
            && Signalled(done, p.sessionName, p.daemonPid.v, "SIGTERM")
  {
    hide Duration;
    var done := [term] + waited;
    assert done[1..] == waited;
    assert forall k :: 0 < k < |done| ==> done[k] == waited[k-1];
  }

  lemma FailedSignal(w: World, h: History, p: PreparedHandoff, term: Event)
    requires p.daemonPid.Value? && term == Event(p.sessionName, SendSignal(p.daemonPid.v, SIGTERM, false))
    ensures For([term], p.sessionName) && SignalsInOrder(w, h, [term], p.sessionName, p.daemonPid.v)
    ensures Evidence(SignalFailed(p.sessionName), p.sessionName, Some(p), [term])
  {}

  /** SIGKILL and what was done after it. */
  ghost predicate KillActs(acts: History, p: PreparedHandoff)
    requires Positive(p.daemonPid)
  {
    && |acts| > 0 && For(acts, p.sessionName) && OnlyWaits(acts[1..])
    && acts[0].act.SendSignal? && acts[0].act.target == p.daemonPid.v && acts[0].act.signal == SIGKILL
  }

  lemma TermThenKill(w: World, h: History, p: PreparedHandoff, term: Event, waited: History, killing: History)
    requires Positive(p.daemonPid) && term == Event(p.sessionName, SendSignal(p.daemonPid.v, SIGTERM, true))
    requires For(waited, p.sessionName) && OnlyWaits(waited) && Last(waited, p.sessionName, ProbeRaw(p.daemonPid.v, true))
    requires Duration(w, h + [term], waited) >= RETIRE_TIMEOUT_MS
    requires KillActs(killing, p)
    ensures var done := [term] + waited + killing;
            && For(done, p.sessionName) && (forall e :: e in done ==> !e.act.Run?)
            && SignalsInOrder(w, h, done, p.sessionName, p.daemonPid.v)
  {
    hide Duration;
    var done, k := [term] + waited + killing, |waited| + 1;
    assert done[1..k] == waited && done[..1] == [term] && done[k] == killing[0] && done[k-1] == waited[|waited|-1];
    assert forall i :: 0 < i < k ==> done[i] == waited[i-1];
    assert forall i :: k < i < |done| ==> done[i] == killing[1..][i-k-1];
    assert forall e :: e in done ==> e == term || e in waited || e == killing[0] || e in killing[1..];
  }

  lemma KillSucceeded(p: PreparedHandoff, term: Event, waited: History, killing: History)
    requires Positive(p.daemonPid) && term == Event(p.sessionName, SendSignal(p.daemonPid.v, SIGTERM, true))
    requires OnlyWaits(waited) && Last(waited, p.sessionName, ProbeRaw(p.daemonPid.v, true))
    requires KillActs(killing, p) && killing[0].act.delivered && Last(killing, p.sessionName, ProbeRaw(p.daemonPid.v, false))
    ensures Signalled([term] + waited + killing, p.sessionName, p.daemonPid.v, "SIGKILL")
  {
    hide OnlyWaits, For;
    var done, k := [term] + waited + killing, |waited| + 1;
    assert done[1..k] == waited && done[k+1..] == killing[1..] && done[k] == killing[0] && done[k-1] == waited[|waited|-1];
    assert killing[0] == Event(p.sessionName, SendSignal(p.daemonPid.v, SIGKILL, true)) by { SessionOf(killing, p.sessionName, 0); }
    assert KilledAt(done, p.sessionName, p.daemonPid.v, k);
  }

  lemma SessionOf(acts: History, session: string, i: nat)
    requires i < |acts| && For(acts, session)
    ensures acts[i].session == session
  {}

  lemma SignalledAlone(acts: History, p: PreparedHandoff, how: string)
    requires Positive(p.daemonPid) && !p.browserPid.Value? && Signalled(acts, p.sessionName, p.daemonPid.v, how)
    ensures SignalledSafely(acts, p, how) && how != "already_exited"
  {}

  lemma SignalledThenProbed(w: World, h: History, acts: History, probe: Event, p: PreparedHandoff, how: string)
    requires Positive(p.daemonPid) && p.browserPid.Value? && Signalled(acts, p.sessionName, p.daemonPid.v, how)
    requires SignalsInOrder(w, h, acts, p.sessionName, p.daemonPid.v) && For(acts, p.sessionName) && forall e :: e in acts ==> !e.act.Run?
    requires probe.session == p.sessionName && probe.act.ProbeRaw? && probe.act.rawPid == p.browserPid.v
    ensures var done := acts + [probe];
            && For(done, p.sessionName) && (forall e :: e in done ==> !e.act.Run?)
            && SignalsInOrder(w, h, done, p.sessionName, p.daemonPid.v)
            && (probe.act.present ==> SignalledSafely(done, p, how)) && how != "already_exited"
  {
    hide Signalled, SignalsInOrder;
    SignalName(acts, p.sessionName, p.daemonPid.v, how);
    ProbedLater(w, h, acts, probe, p.sessionName, p.daemonPid.v);
  }

  lemma SignalName(acts: History, session: string, pid: int, how: string)
    requires Signalled(acts, session, pid, how)
    ensures how == "SIGTERM" || how == "SIGKILL"
  {}

  lemma ProbedLater(w: World, h: History, done: History, probe: Event, session: string, pid: int)
    requires SignalsInOrder(w, h, done, session, pid) && probe.act.ProbeRaw?
    ensures SignalsInOrder(w, h, done + [probe], session, pid)
    ensures (done + [probe])[..|done|] == done
  {
    hide Duration;
    var all := done + [probe];
    forall k | 0 <= k < |all| && all[k].act.SendSignal? ensures SignalAllowed(w, h, all, session, pid, k) {
      assert all[k] == done[k] && SignalAllowed(w, h, done, session, pid, k);
      assert k > 0 ==> all[1..k] == done[1..k] && all[..1] == done[..1];
    }
  }

  lemma OrderedTargets(w: World, h: History, done: History, session: string, pid: int)
    requires SignalsInOrder(w, h, done, session, pid)
    ensures forall e :: e in done && e.act.SendSignal? ==> e.act.target == pid
  {}

  // One session

  /** An iteration up to its prepare command: PID file, display of that process, prepare. */
  ghost predicate Opens(step: History, clientBin: string, session: string, pid: Js<int>) {
    && |step| >= 3 && Positive(pid)
    && step[0] == Event(session, ReadPidFile(pid))
    && step[1].session == session && step[1].act.CaptureDisplay? && step[1].act.daemonPid == pid.v && step[1].act.captured.Some?
    && Ran(step[2], session, HandoffPrepare) && step[2].act.bin == clientBin && step[2].act.env == Undefined
  }

  predicate Gives(reply: Reply) {
    Accepted(reply) && reply.data.prepared
  }

  function HandoffFrom(session: string, daemonPid: Js<int>, data: ReplyData, env: DisplayEnvironment): PreparedHandoff {
    PreparedHandoff(
      session, daemonPid, OrNull(data.browserPid), OrNull(data.cdpUrl), OrNull(data.runtimeProfile),
      OrNull(data.host), OrNull(data.handoffPath), Value(env), Null)
  }

  /** The daemon whose PID file was read gave its browser up, and `p` repeats what it said. */
  ghost predicate PreparedBy(step: History, clientBin: string, p: PreparedHandoff) {
    && Opens(step, clientBin, p.sessionName, p.daemonPid) && Gives(step[2].act.reply)
    && p.(strandedDaemonTermination := Null)
         == HandoffFrom(p.sessionName, p.daemonPid, step[2].act.reply.data, step[1].act.captured.value)
  }

  /** A full wait that found the daemon still live, then a whole retirement. */
  ghost predicate RetiredUpTo(w: World, h: History, acts: History, p: PreparedHandoff, a: nat, b: nat)
    requires Positive(p.daemonPid) && p.strandedDaemonTermination.Value?
  {
    && a <= b <= |acts| && TimedOut(w, h, acts[..a], p.sessionName, p.daemonPid)
    && Retirement(acts[a..b], p, p.strandedDaemonTermination.v) && SignalsBehindBoundary(w, h + acts[..a], acts[a..b], p)
  }

  ghost predicate RetiredWithin(w: World, h: History, acts: History, p: PreparedHandoff, a: nat, b: nat)
    requires Positive(p.daemonPid) && p.strandedDaemonTermination.Value?
  {
    RetiredUpTo(w, h, acts, p, a, b) && Waited(acts[b..], p.sessionName, p.daemonPid, true)
  }

  /** The old daemon was seen dead at last: by waiting, or by a retirement between two
      waits, of which the first took its full time. No wait saw a live new owner. */
  ghost predicate GoneBy(w: World, h: History, acts: History, p: PreparedHandoff) {
    && Positive(p.daemonPid) && Last(acts, p.sessionName, Probe(p.daemonPid.v, false))
    && if p.strandedDaemonTermination.Value? then exists a: nat, b: nat :: RetiredWithin(w, h, acts, p, a, b)
       else Waited(acts, p.sessionName, p.daemonPid, true)
  }

  /** A retirement that was tried and refused. */
  ghost predicate RetirementRefused(w: World, h: History, acts: History, p: PreparedHandoff, err: HandoffError)
    requires Positive(p.daemonPid)
  {
    && SignalsBehindBoundary(w, h, acts, p) && Evidence(err, p.sessionName, Some(p), acts)
    && !err.ExitTimeout? && !err.SessionReacquired?
  }

  /** The daemon was not seen gone: a new owner appeared in the first wait; or that wait
      ran out, and the retirement that follows was refused, or the second wait failed. */
  ghost predicate AdmitFailed(w: World, h: History, acts: History, p: PreparedHandoff, err: HandoffError) {
    && Positive(p.daemonPid)
    && if p.strandedDaemonTermination.Value? then
         exists a: nat, b: nat ::
           RetiredUpTo(w, h, acts, p, a, b) && WaitFailed(w, h + acts[..b], acts[b..], p.sessionName, p.daemonPid, err)
       else
         || (err.SessionReacquired? && WaitFailed(w, h, acts, p.sessionName, p.daemonPid, err))
         || (exists a: nat ::
               && a <= |acts| && TimedOut(w, h, acts[..a], p.sessionName, p.daemonPid)
               && RetirementRefused(w, h + acts[..a], acts[a..], p, err))
  }

  ghost predicate HandedBy(w: World, h: History, step: History, clientBin: string, p: PreparedHandoff) {
    PreparedBy(step, clientBin, p) && GoneBy(w, h + step[..3], step[3..], p)
  }

  /** After a close: the wait, or a dead process where the close was refused. */
  ghost predicate ClosedWait(acts: History, session: string, pid: Js<int>, exited: bool) {
    if exited then Positive(pid) && acts == [Event(session, Probe(pid.v, false))] else Waited(acts, session, pid, true)
  }

  /** Exactly one close, on an idle session. */
  ghost predicate ClosedAt(acts: History, session: string, pid: Js<int>, exited: bool, k: nat) {
    && k + 1 < |acts| && Ran(acts[k], session, Close) && SeenIdle(acts[..k], session)
    && (forall j :: 0 <= j < k && acts[j].act.Run? ==> acts[j].act.command.ServiceBrowsers?)
    && OnlyWaits(acts[k+1..]) && ClosedWait(acts[k+1..], session, pid, exited)
    && (exited <==> !Accepted(acts[k].act.reply))
  }

  /** The exit of a session that gave no browser up: asked to let go and found to have
      none, or unable to prepare, seen idle, and closed. */
  ghost predicate IdleExit(acts: History, session: string, reply: Reply, t: RetiredSession) {
    && t.sessionName == session && Positive(t.daemonPid) && Last(acts, session, Probe(t.daemonPid.v, false))
    && if t.compatibilityClose then !Accepted(reply) && exists k: nat :: ClosedAt(acts, session, t.daemonPid, t.alreadyExited, k)
       else Accepted(reply) && !reply.data.prepared && !t.alreadyExited && Waited(acts, session, t.daemonPid, true)
  }

  ghost predicate RetiredBy(step: History, clientBin: string, t: RetiredSession) {
    Opens(step, clientBin, t.sessionName, t.daemonPid) && IdleExit(step[3..], t.sessionName, step[2].act.reply, t)
  }

  function AboutOf(kept: seq<PreparedHandoff>): Option<PreparedHandoff> {
    if |kept| == 1 then Some(kept[0]) else None
  }

  /** How far a stopped iteration got: no daemon to ask, or asked and answered, and the
      answer decides whether it is in the prepared, the retired or neither list. */
  ghost predicate EnteredBy(w: World, h: History, step: History, clientBin: string, session: string, kept: seq<PreparedHandoff>, idle: seq<RetiredSession>, err: HandoffError) {
    || (err.DisplayUnreadable? && HandsOff(step) && kept == [] && idle == [])
    || (&& |step| > 0 && step[0].act.ReadPidFile? && Opens(step, clientBin, session, step[0].act.pid)
        && (Gives(step[2].act.reply) <==> |kept| == 1)
        && idle == (if Accepted(step[2].act.reply) && !step[2].act.reply.data.prepared then [RetiredSession(session, step[0].act.pid, false, false)] else [])
        && (kept != [] ==> AdmitFailed(w, h + step[..3], step[3..], kept[0], err))
        && (idle != [] ==> WaitFailed(w, h + step[..3], step[3..], session, idle[0].daemonPid, err)))
  }

  /** An iteration that threw: what it had entered so far, and why it stopped. */
  ghost predicate StoppedBy(w: World, h: History, step: History, clientBin: string, session: string, kept: seq<PreparedHandoff>, idle: seq<RetiredSession>, err: HandoffError) {
    && For(step, session) && |kept| <= 1 && EnteredBy(w, h, step, clientBin, session, kept, idle, err)
    && (forall p :: p in kept ==> p.sessionName == session && PreparedBy(step, clientBin, p))
    && Evidence(err, session, AboutOf(kept), step)
  }

  /** The session's daemon accepted a prepare and reported a browser. */
  ghost predicate GaveUp(done: History, session: string) {
    exists e :: e in done && Ran(e, session, HandoffPrepare) && Gives(e.act.reply)
  }

  /** A prepared entry repeats what the daemon reported when it let go, and keeps
      the display environment captured from that daemon. */
  ghost predicate BackedByReply(done: History, clientBin: string, p: PreparedHandoff) {
    && (exists reply ::
          && Event(p.sessionName, Run(clientBin, HandoffPrepare, Undefined, reply)) in done
          && Gives(reply)
          && p.browserPid == OrNull(reply.data.browserPid)
          && p.cdpUrl == OrNull(reply.data.cdpUrl)
          && p.runtimeProfile == OrNull(reply.data.runtimeProfile)
          && p.host == OrNull(reply.data.host)
          && p.handoffPath == OrNull(reply.data.handoffPath))
    && Positive(p.daemonPid) && Event(p.sessionName, ReadPidFile(p.daemonPid)) in done
    && p.displayEnvironment.Value?
    && Event(p.sessionName, CaptureDisplay(p.daemonPid.v, Some(p.displayEnvironment.v))) in done
  }

  ghost predicate AllBacked(done: History, clientBin: string, ps: seq<PreparedHandoff>) {
    forall p :: p in ps ==> BackedByReply(done, clientBin, p)
  }

  lemma PreparedIsBacked(step: History, clientBin: string, p: PreparedHandoff)
    requires PreparedBy(step, clientBin, p)
    ensures BackedByReply(step, clientBin, p)
  {
    hide Gives;
    assert step[0] in step && step[1] in step && step[2] in step;
    assert step[2] == Event(p.sessionName, Run(clientBin, HandoffPrepare, Undefined, step[2].act.reply));
    assert p.(strandedDaemonTermination := Null).displayEnvironment == Value(step[1].act.captured.value);
  }

  lemma BackedGrows(before: History, step: History, clientBin: string, earlier: seq<PreparedHandoff>, added: seq<PreparedHandoff>)
    requires AllBacked(before, clientBin, earlier) && AllBacked(step, clientBin, added)
    ensures AllBacked(before + step, clientBin, earlier + added)
  {
    assert forall e :: e in before || e in step ==> e in before + step;
  }

  /** The client that talks to a daemon: its own executable, or the installed one. */
  function ClientOf(w: World, h: History, pid: int, rollbackBin: string): string {
    var executable := w.executable(h, pid);
    if executable.Some? then executable.value else rollbackBin
  }

  /** Commands go through that client, except that a readback may be repeated. */
  ghost predicate Through(done: History, clientBin: string, rollbackBin: string) {
    forall e :: e in done && e.act.Run? ==> e.act.bin == clientBin || (e.act.command.ServiceBrowsers? && e.act.bin == rollbackBin)
  }

  /** After the prepare command, the iteration talks through the client of the daemon
      whose PID file it read, as looked up before that command. */
  ghost predicate TalksThroughDaemon(w: World, h: History, step: History, rollbackBin: string) {
    |step| > 2 ==>
      && step[0].act.ReadPidFile? && Positive(step[0].act.pid)
      && Through(step[3..], ClientOf(w, h + step[..2], step[0].act.pid.v, rollbackBin), rollbackBin)
  }

  /** The report of an active browser that its daemon could not hand off. */
  ghost predicate UnsupportedFor(step: History, clientBin: string, session: string, entry: UnsupportedSession) {
    && Opens(step, clientBin, session, entry.daemonPid)
    && exists b: BrowserRecord ::
         && SeenActive(step, session, b)
         && entry == UnsupportedSession(session, entry.daemonPid, OrNull(b.pid), OrNull(b.cdpEndpoint), step[2].act.reply.error)
  }

  lemma UnsupportedNames(step: History, clientBin: string, session: string)
    ensures forall entry :: UnsupportedFor(step, clientBin, session, entry) ==> entry.sessionName == session
  {
    hide SeenActive, Opens;
  }

  lemma UnsupportedEntry(head: History, tail: History, clientBin: string, session: string, pid: Js<int>, reply: Reply, entry: UnsupportedSession)
    requires Opens(head + tail, clientBin, session, pid) && (head + tail)[2].act.reply == reply
    requires exists b: BrowserRecord ::
               SeenActive(tail, session, b) && entry == UnsupportedSession(session, pid, OrNull(b.pid), OrNull(b.cdpEndpoint), reply.error)
    ensures UnsupportedFor(head + tail, clientBin, session, entry)
  {
    hide SeenActive;
    var b: BrowserRecord :|
      SeenActive(tail, session, b) && entry == UnsupportedSession(session, pid, OrNull(b.pid), OrNull(b.cdpEndpoint), reply.error);
    SeenActiveLater(head, tail, session, b);
  }

  lemma NoClientYet(w: World, h: History, step: History, rollbackBin: string)
    requires |step| <= 2
    ensures TalksThroughDaemon(w, h, step, rollbackBin)
  {}

  lemma TailThrough(w: World, h: History, capturing: History, tail: History, prepare: Event, pid: Js<int>, rollbackBin: string)
    requires |capturing| == 2 && capturing[0].act == ReadPidFile(pid) && Positive(pid)
    requires Through(tail, ClientOf(w, h + capturing, pid.v, rollbackBin), rollbackBin)
    ensures TalksThroughDaemon(w, h, capturing + [prepare] + tail, rollbackBin)
  {
    hide Through;
    var step := capturing + [prepare] + tail;
    assert step[..2] == capturing && step[3..] == tail;
  }

  lemma RunsThrough(done: History, clientBin: string, rollbackBin: string)
    requires forall e :: e in done ==> !e.act.Run?
    ensures Through(done, clientBin, rollbackBin)
  {}

  lemma OwnershipThrough(owned: History, probed: History, clientBin: string, rollbackBin: string)
    requires 1 <= |owned| <= 2 && owned[0].act.Run? && owned[0].act.bin == clientBin
    requires |owned| == 2 ==> owned[1].act.Run? && owned[1].act.command.ServiceBrowsers? && owned[1].act.bin == rollbackBin
    requires forall e :: e in probed ==> !e.act.Run?
    ensures Through(owned + probed, clientBin, rollbackBin)
  {}

  lemma ClosingThrough(asked: History, closing: History, session: string, clientBin: string, rollbackBin: string)
    requires Through(asked, clientBin, rollbackBin)
    requires |closing| > 0 && Ran(closing[0], session, Close) && closing[0].act.bin == clientBin && OnlyWaits(closing[1..])
    ensures Through(asked + closing, clientBin, rollbackBin)
  {
    assert closing == [closing[0]] + closing[1..];
  }

  // Assembling an iteration from its opening (`head`) and the rest

  lemma OpensAt(head: History, tail: History, clientBin: string, session: string, pid: Js<int>, env: DisplayEnvironment, reply: Reply)
    requires Positive(pid)
    requires head == [
               Event(session, ReadPidFile(pid)), Event(session, CaptureDisplay(pid.v, Some(env))),
               Event(session, Run(clientBin, HandoffPrepare, Undefined, reply))]
    ensures Opens(head + tail, clientBin, session, pid)
    ensures (head + tail)[3..] == tail && (head + tail)[2].act.reply == reply && (head + tail)[1].act.captured == Some(env)
    ensures For(head, session) && ClosesOnlyIdle(head)
  {}

  lemma GaveUpAtPrepare(step: History, clientBin: string, session: string, pid: Js<int>)
    requires Opens(step, clientBin, session, pid)
    requires forall e :: e in step[3..] && e.act.Run? ==> !e.act.command.HandoffPrepare?
    ensures GaveUp(step, session) <==> Gives(step[2].act.reply)
  {
    assert step[2] in step;
    assert step == [step[0], step[1], step[2]] + step[3..];
  }

  lemma NotPrepared(done: History, session: string)
    requires forall e :: e in done ==> !e.act.Run?
    ensures !GaveUp(done, session)
  {}

  // Assembling the exits

  lemma GoneByWaiting(w: World, h: History, waited: History, p: PreparedHandoff)
    requires Positive(p.daemonPid) && p.strandedDaemonTermination == Null
    requires Waited(waited, p.sessionName, p.daemonPid, true) && Last(waited, p.sessionName, Probe(p.daemonPid.v, false))
    ensures GoneBy(w, h, waited, p)
  {
    hide Waited;
  }

  lemma FailedByWaiting(w: World, h: History, waited: History, p: PreparedHandoff, err: HandoffError)
    requires Positive(p.daemonPid) && p.strandedDaemonTermination == Null
    requires WaitFailed(w, h, waited, p.sessionName, p.daemonPid, err) && !err.ExitTimeout?
    ensures AdmitFailed(w, h, waited, p, err)
  {
    hide TimedOut, Reacquired;
  }

  lemma FailedByRetiring(w: World, h: History, waited: History, retiring: History, p: PreparedHandoff, timeout: HandoffError, err: HandoffError)
    requires Positive(p.daemonPid) && p.strandedDaemonTermination == Null
    requires WaitFailed(w, h, waited, p.sessionName, p.daemonPid, timeout) && timeout.ExitTimeout?
    requires RetirementRefused(w, h + waited, retiring, p, err)
    ensures AdmitFailed(w, h, waited + retiring, p, err)
  {
    hide TimedOut, Reacquired, RetirementRefused;
    var acts := waited + retiring;
    assert acts[..|waited|] == waited && acts[|waited|..] == retiring;
  }

  lemma RetiredBetween(w: World, h: History, waited: History, retiring: History, waitedAgain: History, p: PreparedHandoff, q: PreparedHandoff, timeout: HandoffError)
    requires Positive(p.daemonPid) && q.strandedDaemonTermination.Value?
    requires q == p.(strandedDaemonTermination := q.strandedDaemonTermination)
    requires WaitFailed(w, h, waited, p.sessionName, p.daemonPid, timeout) && timeout.ExitTimeout?
    requires Retirement(retiring, p, q.strandedDaemonTermination.v) && SignalsBehindBoundary(w, h + waited, retiring, p)
    ensures var done, a, b := waited + retiring + waitedAgain, |waited|, |waited + retiring|;
            && RetiredUpTo(w, h, done, q, a, b) && done[b..] == waitedAgain && done[..b] == waited + retiring
  {
    hide TimedOut, Reacquired, Signalled, SignalsInOrder, HandsOff, DescribesPrepared;
    var done, a, b := waited + retiring + waitedAgain, |waited|, |waited + retiring|;
    assert done[..a] == waited && done[a..b] == retiring && done[b..] == waitedAgain && done[..b] == waited + retiring;
    RetirementIgnoresReport(retiring, p, q, q.strandedDaemonTermination.v);
    BoundaryIgnoresReport(w, h + waited, retiring, p, q);
  }

  lemma FailedAfterRetiring(w: World, h: History, done: History, a: nat, b: nat, q: PreparedHandoff, err: HandoffError)
    requires Positive(q.daemonPid) && q.strandedDaemonTermination.Value? && RetiredUpTo(w, h, done, q, a, b)
    requires WaitFailed(w, h + done[..b], done[b..], q.sessionName, q.daemonPid, err)
    ensures AdmitFailed(w, h, done, q, err)
  {
    hide RetiredUpTo, WaitFailed;
  }

  lemma GoneByRetiring(w: World, h: History, done: History, a: nat, b: nat, q: PreparedHandoff)
    requires Positive(q.daemonPid) && q.strandedDaemonTermination.Value? && RetiredUpTo(w, h, done, q, a, b)
    requires b <= |done| && Waited(done[b..], q.sessionName, q.daemonPid, true)
    ensures GoneBy(w, h, done, q)
  {
    WaitedEnds(done[b..], q.sessionName, q.daemonPid, true);
    hide RetiredUpTo, Waited;
    assert done[|done|-1] == done[b..][|done[b..]|-1];
    assert RetiredWithin(w, h, done, q, a, b);
  }

  lemma BoundaryIgnoresReport(w: World, h: History, acts: History, p: PreparedHandoff, q: PreparedHandoff)
    requires Positive(p.daemonPid) && q == p.(strandedDaemonTermination := q.strandedDaemonTermination)
    requires SignalsBehindBoundary(w, h, acts, p)
    ensures SignalsBehindBoundary(w, h, acts, q)
  {
    hide SignalsInOrder, HandsOff;
  }

  lemma RetirementIgnoresReport(acts: History, p: PreparedHandoff, q: PreparedHandoff, how: string)
    requires Positive(p.daemonPid) && q == p.(strandedDaemonTermination := q.strandedDaemonTermination) && Retirement(acts, p, how)
    ensures Retirement(acts, q, how)
  {
    hide Signalled;
  }

  lemma ReadsOnly(owned: History, probed: History, session: string)
    requires 1 <= |owned| <= 2 && Ran(owned[0], session, ServiceBrowsers) && Ran(owned[|owned|-1], session, ServiceBrowsers)
    requires probed == [] || (|probed| == 1 && probed[0].session == session && probed[0].act.Probe?)
    ensures For(owned + probed, session)
    ensures forall e :: e in owned + probed ==> !e.act.SendSignal? && (e.act.Run? ==> e.act.command.ServiceBrowsers?)
  {}

  /** What an ownership readback, followed by a probe of the browser it named, shows. */
  lemma OwnershipReadback(owned: History, probed: History, session: string, readback: Readback, live: bool)
    requires |owned| > 0 && Ran(owned[|owned|-1], session, ServiceBrowsers)
    requires readback == ReadbackOf(owned[|owned|-1].act.reply, session, None)
    requires readback.success && readback.browser.Some? ==>
               if Positive(readback.browser.value.pid) then probed == [Event(session, Probe(readback.browser.value.pid.v, live))]
               else !live && probed == []
    requires readback.browser.None? ==> !live && probed == []
    ensures !readback.success ==> Evidence(OwnershipUnproven(session), session, None, owned)
    ensures readback.success && AppearsActive(readback.browser, live) ==> SeenActive(owned + probed, session, readback.browser.value)
    ensures readback.success && !AppearsActive(readback.browser, live) ==> SeenIdle(owned + probed, session)
  {
    hide ReadbackOf;
    var k, done := |owned| - 1, owned + probed;
    assert done[k] == owned[k] && forall j :: k < j < |done| ==> done[j] == probed[j-|owned|];
    if readback.success {
      assert ReadbackAt(done, session, k);
      if AppearsActive(readback.browser, live) {
        assert ActiveAt(done, session, k, readback.browser.value);
      } else {
        assert IdleAt(done, session, k);
      }
    }
  }

  lemma CloseActs(asked: History, closing: History, session: string)
    requires For(asked, session) && For(closing, session)
    requires forall e :: e in asked ==> !e.act.SendSignal? && (e.act.Run? ==> e.act.command.ServiceBrowsers?)
    requires |closing| > 0 && Ran(closing[0], session, Close) && OnlyWaits(closing[1..])
    ensures var done := asked + closing;
            && For(done, session)
            && (forall e :: e in done ==> !e.act.SendSignal? && (e.act.Run? ==> e.act.command.ServiceBrowsers? || e.act.command.Close?))
            && done[..|asked|] == asked && done[|asked|] == closing[0] && done[|asked|+1..] == closing[1..]
            && (forall k :: 0 <= k < |done| && Ran(done[k], session, Close) ==> k == |asked|)
  {
    var done, k := asked + closing, |asked|;
    assert done[..k] == asked && done[k+1..] == closing[1..];
    assert forall j :: 0 <= j < k ==> done[j] == asked[j] && asked[j] in asked;
    assert forall j :: k < j < |done| ==> done[j] == closing[1..][j-k-1] && closing[1..][j-k-1] in closing[1..];
  }

  /** A close right after an idle readback. */
  lemma ClosedAfterReadback(asked: History, closing: History, session: string, pid: Js<int>)
    requires For(asked, session) && SeenIdle(asked, session) && For(closing, session)
    requires forall e :: e in asked ==> !e.act.SendSignal? && (e.act.Run? ==> e.act.command.ServiceBrowsers?)
    requires |closing| > 0 && Ran(closing[0], session, Close) && OnlyWaits(closing[1..])
    ensures var done := asked + closing;
            && For(done, session) && ClosesOnlyIdle(done)
            && (forall e :: e in done ==> !e.act.SendSignal? && (e.act.Run? ==> e.act.command.ServiceBrowsers? || e.act.command.Close?))
            && (|closing| > 1 && ClosedWait(closing[1..], session, pid, !Accepted(closing[0].act.reply)) ==>
                  ClosedAt(done, session, pid, !Accepted(closing[0].act.reply), |asked|))
  {
    hide SeenIdle, Accepted, OnlyWaits, ClosedWait;
    CloseActs(asked, closing, session);
    var done := asked + closing;
    assert forall j :: 0 <= j < |asked| ==> done[j] == asked[j] && asked[j] in asked;
    forall j | 0 <= j < |done| ensures done[j].session == session {
      SessionOf(done, session, j);
    }
  }

  lemma ClosedExit(done: History, session: string, reply: Reply, daemonPid: Js<int>, t: RetiredSession)
    requires Positive(daemonPid) && !Accepted(reply) && Last(done, session, Probe(daemonPid.v, false))
    requires t.sessionName == session && t.daemonPid == daemonPid && t.compatibilityClose
    requires exists k: nat :: ClosedAt(done, session, daemonPid, t.alreadyExited, k)
    ensures IdleExit(done, session, reply, t)
  {}

  lemma ActivityNeedsCommand(done: History, session: string, b: BrowserRecord)
    requires SeenActive(done, session, b)
    ensures exists e :: e in done && e.act.Run?
  {
    hide ReadbackOf, AppearsActive;
    var k: nat :| ActiveAt(done, session, k, b);
    assert done[k] in done;
  }

  /** An error found without running a command is not about an active browser. */
  lemma RunsNothing(err: HandoffError, session: string, about: Option<PreparedHandoff>, done: History)
    requires Evidence(err, session, about, done) && forall e :: e in done ==> !e.act.Run?
    ensures err != UnsupportedActive(session)
  {
    hide SeenActive, Shows, LacksCustody;
    forall b | SeenActive(done, session, b) ensures false {
      ActivityNeedsCommand(done, session, b);
    }
  }

  lemma StoppedEarly(w: World, h: History, capturing: History, clientBin: string, session: string, err: HandoffError)
    requires For(capturing, session) && Evidence(err, session, None, capturing)
    requires err.DisplayUnreadable? && forall e :: e in capturing ==> !e.act.Run? && !e.act.SendSignal?
    ensures StoppedBy(w, h, capturing, clientBin, session, [], [], err)
  {}

  /** The outcome of an iteration, from its opening, its prepare reply and its tail. */
  lemma IterationOutcome(w: World, h: History, capturing: History, head: History, tail: History, clientBin: string, rollbackBin: string,
                         session: string, pid: Js<int>, env: DisplayEnvironment, reply: Reply,
                         r: Result<bool, HandoffError>, kept: seq<PreparedHandoff>, idle: seq<RetiredSession>)
    requires Positive(pid)
    requires capturing == [Event(session, ReadPidFile(pid)), Event(session, CaptureDisplay(pid.v, Some(env)))]
    requires head == capturing + [Event(session, Run(clientBin, HandoffPrepare, Undefined, reply))]
    requires For(tail, session) && ClosesOnlyIdle(tail) && Through(tail, ClientOf(w, h + capturing, pid.v, rollbackBin), rollbackBin)
    requires forall e :: e in tail && e.act.Run? ==> e.act.command.ServiceBrowsers? || e.act.command.Close?
    requires if Gives(reply) then
               && |kept| == 1 && idle == []
               && kept[0].(strandedDaemonTermination := Null) == HandoffFrom(session, pid, reply.data, env)
             else kept == []
    requires r.Ok? ==> (r.value <==> Gives(reply))
    requires r.Ok? && r.value ==> GoneBy(w, h + head, tail, kept[0])
    requires r.Ok? && !r.value ==> |idle| == 1 && idle[0].daemonPid == pid && IdleExit(tail, session, reply, idle[0])
    requires r.Err? ==> Evidence(r.error, session, AboutOf(kept), tail)
    requires r.Err? && kept != [] ==> AdmitFailed(w, h + head, tail, kept[0], r.error)
    requires r.Err? && idle != [] ==> WaitFailed(w, h + head, tail, session, pid, r.error)
    requires r.Err? ==> idle == if Accepted(reply) && !reply.data.prepared then [RetiredSession(session, pid, false, false)] else []
    ensures var done := head + tail;
            && For(done, session) && ClosesOnlyIdle(done) && TalksThroughDaemon(w, h, done, rollbackBin)
            && Opens(done, clientBin, session, pid) && done[2].act.reply == reply
            && (forall e :: e in done && e.act.Run? ==> !e.act.command.HandoffResume?)
            && (GaveUp(done, session) <==> Gives(reply))
            && (Gives(reply) ==> kept[0].sessionName == session && PreparedBy(done, clientBin, kept[0]))
            && (r.Ok? && r.value ==> HandedBy(w, h, done, clientBin, kept[0]))
            && (r.Ok? && !r.value ==> idle[0].sessionName == session && RetiredBy(done, clientBin, idle[0]))
            && (r.Err? ==> StoppedBy(w, h, done, clientBin, session, kept, idle, r.error))
  {
    hide Evidence, GoneBy, AdmitFailed, WaitFailed, ClosedAt, Waited, GaveUp, Accepted, For, Opens, ClosesOnlyIdle, Through, TalksThroughDaemon;
    var done := head + tail;
    OpensAt(head, tail, clientBin, session, pid, env, reply);
    ForConcat(head, tail, session);
    ClosesConcat(head, tail);
    TailThrough(w, h, capturing, tail, head[2], pid, rollbackBin);
    assert done[..3] == head;
    GaveUpAtPrepare(done, clientBin, session, pid);
    GivesFacts(reply);
    if r.Err? {
      EvidenceGrows(r.error, session, AboutOf(kept), head, tail);
    }
    if Gives(reply) {
      assert kept[0].(strandedDaemonTermination := Null).sessionName == session && kept[0].(strandedDaemonTermination := Null).daemonPid == pid;
    }
  }

  lemma GivesFacts(reply: Reply)
    ensures Gives(reply) <==> Accepted(reply) && reply.data.prepared
  {}

  // The whole loop

  function RetiredNames(ts: seq<RetiredSession>): (r: seq<string>)
    ensures |r| == |ts| && forall i :: 0 <= i < |ts| ==> r[i] == ts[i].sessionName
  {
    seq(|ts|, i requires 0 <= i < |ts| => ts[i].sessionName)
  }

  ghost function NamesOf(ps: seq<PreparedHandoff>): set<string> {
    set p | p in ps :: p.sessionName
  }

  /** The sessions whose flag is `v`, in order. */
  ghost function Pick(sessions: seq<string>, flags: seq<bool>, v: bool): seq<string>
    requires |sessions| == |flags|
  {
    if sessions == [] then []
    else Pick(sessions[..|sessions|-1], flags[..|flags|-1], v) + if flags[|flags|-1] == v then [sessions[|sessions|-1]] else []
  }

  /** The list without the entry its last session accounts for, if it does. */
  function Before<T>(list: seq<T>, grew: bool): seq<T> {
    if grew && |list| > 0 then list[..|list|-1] else list
  }

  /** One part: a handoff that accounts for the last prepared entry, or an exit that
      accounts for the last retired one. */
  ghost predicate LastExit(w: World, h: History, step: History, clientBin: string, session: string, handed: bool, kept: seq<PreparedHandoff>, retired: seq<RetiredSession>) {
    && For(step, session)
    && if handed then |kept| > 0 && kept[|kept|-1].sessionName == session && HandedBy(w, h, step, clientBin, kept[|kept|-1])
       else |retired| > 0 && retired[|retired|-1].sessionName == session && RetiredBy(step, clientBin, retired[|retired|-1])
  }

  /** `done` splits into one such part per session, in order. */
  ghost predicate Settled(w: World, h: History, sessions: seq<string>, handed: seq<bool>, done: History, clientBin: string,
                          kept: seq<PreparedHandoff>, retired: seq<RetiredSession>)
    decreases |sessions|
  {
    && |handed| == |sessions|
    && if sessions == [] then done == [] && kept == [] && retired == []
       else
         var last := |sessions| - 1;
         exists n: nat ::
           && n <= |done| && LastExit(w, h + done[..n], done[n..], clientBin, sessions[last], handed[last], kept, retired)
           && Settled(w, h, sessions[..last], handed[..last], done[..n], clientBin, Before(kept, handed[last]), Before(retired, !handed[last]))
  }

  lemma SettledNothing(w: World, h: History, sessions: seq<string>, clientBin: string)
    requires sessions == []
    ensures Settled(w, h, sessions, [], [], clientBin, [], [])
    ensures NamesOf([]) == {} && AllBacked([], clientBin, []) && ClosesOnlyIdle([])
  {}

  lemma NewestExit(w: World, h: History, step: History, clientBin: string, session: string, kept: seq<PreparedHandoff>, retired: seq<RetiredSession>,
                   newKept: seq<PreparedHandoff>, newRetired: seq<RetiredSession>)
    requires |newKept| + |newRetired| == 1 && For(step, session)
    requires forall p :: p in newKept ==> p.sessionName == session && HandedBy(w, h, step, clientBin, p)
    requires forall t :: t in newRetired ==> t.sessionName == session && RetiredBy(step, clientBin, t)
    ensures LastExit(w, h, step, clientBin, session, |newKept| == 1, kept + newKept, retired + newRetired)
    ensures Before(kept + newKept, |newKept| == 1) == kept && Before(retired + newRetired, |newKept| != 1) == retired
  {
    hide HandedBy, RetiredBy, For;
    if |newKept| == 1 {
      assert newKept[0] in newKept;
    } else {
      assert newRetired[0] in newRetired;
    }
  }

  lemma SettledBy(w: World, h: History, sessions: seq<string>, handed: seq<bool>, done: History, clientBin: string,
                  kept: seq<PreparedHandoff>, retired: seq<RetiredSession>, n: nat)
    requires |handed| == |sessions| > 0 && n <= |done|
    requires var last := |sessions| - 1;
             && LastExit(w, h + done[..n], done[n..], clientBin, sessions[last], handed[last], kept, retired)
             && Settled(w, h, sessions[..last], handed[..last], done[..n], clientBin, Before(kept, handed[last]), Before(retired, !handed[last]))
    ensures Settled(w, h, sessions, handed, done, clientBin, kept, retired)
  {
    hide LastExit, Before;
  }

  /** One more session settled. */
  lemma SettledStep(w: World, h: History, sessions: seq<string>, handed: seq<bool>, before: History, clientBin: string,
                    kept: seq<PreparedHandoff>, retired: seq<RetiredSession>,
                    session: string, step: History, newKept: seq<PreparedHandoff>, newRetired: seq<RetiredSession>)
    requires Settled(w, h, sessions, handed, before, clientBin, kept, retired) && For(step, session)
    requires |newKept| + |newRetired| == 1
    requires forall p :: p in newKept ==> p.sessionName == session && HandedBy(w, h + before, step, clientBin, p)
    requires forall t :: t in newRetired ==> t.sessionName == session && RetiredBy(step, clientBin, t)
    ensures Settled(w, h, sessions + [session], handed + [|newKept| == 1], before + step, clientBin, kept + newKept, retired + newRetired)
  {
    hide HandedBy, RetiredBy, For, LastExit, Before, Settled;
    SettledLength(w, h, sessions, handed, before, clientBin, kept, retired);
    NewestExit(w, h + before, step, clientBin, session, kept, retired, newKept, newRetired);
    var all, names, flags := before + step, sessions + [session], handed + [|newKept| == 1];
    assert names[..|sessions|] == sessions && flags[..|sessions|] == handed && names[|sessions|] == session;
    assert all[..|before|] == before && all[|before|..] == step;
    SettledBy(w, h, names, flags, all, clientBin, kept + newKept, retired + newRetired, |before|);
  }

  lemma LastExitNames(w: World, h: History, step: History, clientBin: string, sessions: seq<string>, handed: seq<bool>, kept: seq<PreparedHandoff>, retired: seq<RetiredSession>)
    requires |handed| == |sessions| > 0
    requires LastExit(w, h, step, clientBin, sessions[|sessions|-1], handed[|sessions|-1], kept, retired)
    ensures var last := |sessions| - 1;
            && Names(kept) == Names(Before(kept, handed[last])) + (if handed[last] then [sessions[last]] else [])
            && RetiredNames(retired) == RetiredNames(Before(retired, !handed[last])) + (if handed[last] then [] else [sessions[last]])
  {
    hide HandedBy, RetiredBy, For, Names, RetiredNames;
    var last := |sessions| - 1;
    if handed[last] {
      assert kept == Before(kept, true) + [kept[|kept|-1]];
      NamesSnoc(Before(kept, true), kept[|kept|-1]);
    } else {
      assert retired == Before(retired, true) + [retired[|retired|-1]];
      RetiredNamesSnoc(Before(retired, true), retired[|retired|-1]);
    }
  }

  lemma LastExitBacked(w: World, h: History, before: History, step: History, clientBin: string, session: string, handed: bool, kept: seq<PreparedHandoff>, retired: seq<RetiredSession>)
    requires LastExit(w, h, step, clientBin, session, handed, kept, retired) && AllBacked(before, clientBin, Before(kept, handed))
    ensures AllBacked(before + step, clientBin, kept)
  {
    hide HandedBy, RetiredBy, For, AllBacked;
    if handed {
      HandedIsBacked(w, h, step, clientBin, kept[|kept|-1]);
      BackedGrows(before, step, clientBin, Before(kept, true), [kept[|kept|-1]]);
      assert kept == Before(kept, true) + [kept[|kept|-1]];
    } else {
      NothingBacked(step, clientBin);
      BackedGrows(before, step, clientBin, kept, []);
      assert kept + [] == kept;
    }
  }

  lemma LastExitSessions(w: World, h: History, before: History, step: History, clientBin: string, sessions: seq<string>, last: nat,
                         handed: bool, kept: seq<PreparedHandoff>, retired: seq<RetiredSession>)
    requires last + 1 == |sessions| && LastExit(w, h, step, clientBin, sessions[last], handed, kept, retired)
    requires forall e :: e in before ==> e.session in sessions[..last]
    ensures forall e :: e in before + step ==> e.session in sessions
  {
    hide HandedBy, RetiredBy;
  }

  lemma NoNames()
    ensures Names([]) == [] && RetiredNames([]) == []
  {}

  lemma NamesSnoc(front: seq<PreparedHandoff>, p: PreparedHandoff)
    ensures Names(front + [p]) == Names(front) + [p.sessionName]
  {}

  lemma RetiredNamesSnoc(front: seq<RetiredSession>, t: RetiredSession)
    ensures RetiredNames(front + [t]) == RetiredNames(front) + [t.sessionName]
  {}

  lemma HandedIsBacked(w: World, h: History, step: History, clientBin: string, p: PreparedHandoff)
    requires HandedBy(w, h, step, clientBin, p)
    ensures AllBacked(step, clientBin, [p])
  {
    PreparedIsBacked(step, clientBin, p);
  }

  /** What a settled loop means: both lists partition the sessions in order, every
      prepared entry is backed by its daemon's reply, and nobody else was touched. */
  lemma {:induction false} SettledFacts(w: World, h: History, sessions: seq<string>, handed: seq<bool>, done: History, clientBin: string,
                                        kept: seq<PreparedHandoff>, retired: seq<RetiredSession>)
    requires Settled(w, h, sessions, handed, done, clientBin, kept, retired)
    ensures |handed| == |sessions|
    ensures Names(kept) == Pick(sessions, handed, true)
    ensures RetiredNames(retired) == Pick(sessions, handed, false)
    ensures AllBacked(done, clientBin, kept)
    ensures forall e :: e in done ==> e.session in sessions
    decreases |sessions|
  {
    hide LastExit, AllBacked, Before, Names, RetiredNames;
    if sessions == [] {
      NoNames();
      NothingBacked(done, clientBin);
    } else {
      var last := |sessions| - 1;
      var n: nat :|
        && n <= |done| && LastExit(w, h + done[..n], done[n..], clientBin, sessions[last], handed[last], kept, retired)
        && Settled(w, h, sessions[..last], handed[..last], done[..n], clientBin, Before(kept, handed[last]), Before(retired, !handed[last]));
      SettledFacts(w, h, sessions[..last], handed[..last], done[..n], clientBin, Before(kept, handed[last]), Before(retired, !handed[last]));
      LastExitNames(w, h + done[..n], done[n..], clientBin, sessions, handed, kept, retired);
      LastExitBacked(w, h + done[..n], done[..n], done[n..], clientBin, sessions[last], handed[last], kept, retired);
      LastExitSessions(w, h + done[..n], done[..n], done[n..], clientBin, sessions, last, handed[last], kept, retired);
      assert done == done[..n] + done[n..];
    }
  }

  lemma NothingBacked(done: History, clientBin: string)
    ensures AllBacked(done, clientBin, [])
  {}

  /** The loop stopped at `sessions[|handed|]`: the sessions before are settled, later
      ones were not touched, and that session itself stopped with `err`. */
  ghost predicate StoppedAt(w: World, h: History, sessions: seq<string>, handed: seq<bool>, done: History, clientBin: string,
                            kept: seq<PreparedHandoff>, idle: seq<RetiredSession>, err: HandoffError)
    requires |handed| < |sessions|
  {
    exists n: nat, k: nat, t: nat ::
      && n <= |done| && k <= |kept| && t <= |idle|
      && Settled(w, h, sessions[..|handed|], handed, done[..n], clientBin, kept[..k], idle[..t])
      && StoppedBy(w, h + done[..n], done[n..], clientBin, sessions[|handed|], kept[k..], idle[t..], err)
  }

  /** What is known when the loop stops at `sessions[i]`. */
  lemma FailedStep(w: World, h: History, sessions: seq<string>, handed: seq<bool>, before: History, clientBin: string,
                   kept: seq<PreparedHandoff>, retired: seq<RetiredSession>,
                   i: nat, step: History, newKept: seq<PreparedHandoff>, newIdle: seq<RetiredSession>, err: HandoffError)
    requires i < |sessions| && Settled(w, h, sessions[..i], handed, before, clientBin, kept, retired)
    requires StoppedBy(w, h + before, step, clientBin, sessions[i], newKept, newIdle, err)
    ensures |handed| == i && StoppedAt(w, h, sessions, handed, before + step, clientBin, kept + newKept, retired + newIdle, err)
    ensures AllBacked(before + step, clientBin, kept + newKept)
  {
    SettledLength(w, h, sessions[..i], handed, before, clientBin, kept, retired);
    var all, ps, ts := before + step, kept + newKept, retired + newIdle;
    assert all[..|before|] == before && all[|before|..] == step;
    assert ps[..|kept|] == kept && ps[|kept|..] == newKept && ts[..|retired|] == retired && ts[|retired|..] == newIdle;
    hide Settled, StoppedBy, AllBacked;
    SettledFacts(w, h, sessions[..i], handed, before, clientBin, kept, retired);
    StoppedIsBacked(w, h + before, step, clientBin, sessions[i], newKept, newIdle, err);
    BackedGrows(before, step, clientBin, kept, newKept);
  }

  lemma SettledLength(w: World, h: History, sessions: seq<string>, handed: seq<bool>, done: History, clientBin: string, kept: seq<PreparedHandoff>, retired: seq<RetiredSession>)
    requires Settled(w, h, sessions, handed, done, clientBin, kept, retired)
    ensures |handed| == |sessions|
  {}

  lemma StoppedIsBacked(w: World, h: History, step: History, clientBin: string, session: string, kept: seq<PreparedHandoff>, idle: seq<RetiredSession>, err: HandoffError)
    requires StoppedBy(w, h, step, clientBin, session, kept, idle, err)
    ensures AllBacked(step, clientBin, kept)
  {
    hide PreparedBy, BackedByReply;
    forall p | p in kept ensures BackedByReply(step, clientBin, p) {
      PreparedIsBacked(step, clientBin, p);
    }
  }

  lemma StoppedSession(w: World, h: History, step: History, clientBin: string, session: string, kept: seq<PreparedHandoff>, idle: seq<RetiredSession>, err: HandoffError)
    requires StoppedBy(w, h, step, clientBin, session, kept, idle, err)
    ensures err.UnsupportedActive? ==> err == UnsupportedActive(session)
  {
    EvidenceNames(err, session, AboutOf(kept), step);
  }

  /** Where the settled part of a stopped loop ends. */
  lemma StoppedParts(w: World, h: History, sessions: seq<string>, handed: seq<bool>, done: History, clientBin: string,
                     kept: seq<PreparedHandoff>, idle: seq<RetiredSession>, err: HandoffError) returns (n: nat, k: nat, t: nat)
    requires |handed| < |sessions| && StoppedAt(w, h, sessions, handed, done, clientBin, kept, idle, err)
    ensures n <= |done| && k <= |kept| && t <= |idle|
    ensures Settled(w, h, sessions[..|handed|], handed, done[..n], clientBin, kept[..k], idle[..t])
    ensures StoppedBy(w, h + done[..n], done[n..], clientBin, sessions[|handed|], kept[k..], idle[t..], err)
  {
    hide Settled, StoppedBy;
    n, k, t :|
      && n <= |done| && k <= |kept| && t <= |idle|
      && Settled(w, h, sessions[..|handed|], handed, done[..n], clientBin, kept[..k], idle[..t])
      && StoppedBy(w, h + done[..n], done[n..], clientBin, sessions[|handed|], kept[k..], idle[t..], err);
  }

  /** What a stopped loop means: the error is one of that session's, later sessions
      were left alone, and the lists hold the settled sessions and at most that one. */
  lemma StoppedFacts(w: World, h: History, sessions: seq<string>, handed: seq<bool>, done: History, clientBin: string,
                     kept: seq<PreparedHandoff>, idle: seq<RetiredSession>, err: HandoffError)
    requires |handed| < |sessions| && StoppedAt(w, h, sessions, handed, done, clientBin, kept, idle, err)
    ensures !err.InventoryChanged? && err.session == sessions[|handed|]
    ensures forall e :: e in done ==> e.session in sessions[..|handed|+1]
    ensures var settled := sessions[..|handed|];
            || Names(kept) == Pick(settled, handed, true)
            || Names(kept) == Pick(settled, handed, true) + [sessions[|handed|]]
  {
    hide *;
    var settled, session := sessions[..|handed|], sessions[|handed|];
    var n, k, t := StoppedParts(w, h, sessions, handed, done, clientBin, kept, idle, err);
    assert done == done[..n] + done[n..] && kept == kept[..k] + kept[k..] && sessions[..|handed|+1] == settled + [session];
    StoppedSplit(w, h, settled, handed, session, done[..n], done[n..], clientBin, kept[..k], kept[k..], idle[..t], idle[t..], err);
  }

  lemma StoppedSplit(w: World, h: History, settled: seq<string>, handed: seq<bool>, session: string, before: History, step: History, clientBin: string,
                     front: seq<PreparedHandoff>, kept: seq<PreparedHandoff>, settledIdle: seq<RetiredSession>, idle: seq<RetiredSession>, err: HandoffError)
    requires Settled(w, h, settled, handed, before, clientBin, front, settledIdle) && StoppedBy(w, h + before, step, clientBin, session, kept, idle, err)
    ensures |handed| == |settled| && !err.InventoryChanged? && err.session == session
    ensures forall e :: e in before + step ==> e.session in settled + [session]
    ensures || Names(front + kept) == Pick(settled, handed, true)
            || Names(front + kept) == Pick(settled, handed, true) + [session]
  {
    hide Settled, StoppedBy, Pick, Names, AllBacked;
    SettledFacts(w, h, settled, handed, before, clientBin, front, settledIdle);
    StoppedNames(w, h + before, step, clientBin, session, kept, idle, err, front);
    StoppedSessions(w, h + before, before, step, clientBin, settled, session, kept, idle, err);
  }

  lemma StoppedSessions(w: World, h: History, before: History, step: History, clientBin: string, settled: seq<string>, session: string,
                        kept: seq<PreparedHandoff>, idle: seq<RetiredSession>, err: HandoffError)
    requires StoppedBy(w, h, step, clientBin, session, kept, idle, err)
    requires forall e :: e in before ==> e.session in settled
    ensures forall e :: e in before + step ==> e.session in settled + [session]
    ensures !err.InventoryChanged? && err.session == session
  {
    hide PreparedBy, Opens;
    EvidenceNames(err, session, AboutOf(kept), step);
  }

  lemma StoppedNames(w: World, h: History, step: History, clientBin: string, session: string, kept: seq<PreparedHandoff>, idle: seq<RetiredSession>, err: HandoffError, front: seq<PreparedHandoff>)
    requires StoppedBy(w, h, step, clientBin, session, kept, idle, err)
    ensures Names(front + kept) == Names(front) || Names(front + kept) == Names(front) + [session]
  {
    hide Evidence, PreparedBy, Opens, Names;
    if kept == [] {
      assert front + kept == front;
    } else {
      assert kept[0] in kept && kept == [kept[0]];
      NamesSnoc(front, kept[0]);
    }
  }

  lemma EvidenceNames(err: HandoffError, session: string, about: Option<PreparedHandoff>, done: History)
    requires Evidence(err, session, about, done)
    ensures !err.InventoryChanged? && err.session == session
  {}

  // Who holds which browser

  lemma {:induction false} PreparingRelinquishes(h: History, done: History, session: string)
    requires For(done, session) && forall e :: e in done ==> !Ran(e, session, HandoffResume)
    ensures Relinquished(h + done) == if GaveUp(done, session) then Relinquished(h) + {session} else Relinquished(h)
    decreases |done|
  {
    hide Relinquished, GaveUp, Accepted;
    if done == [] {
      assert h + done == h;
      NotPrepared(done, session);
    } else {
      var prior, e := done[..|done|-1], done[|done|-1];
      assert done == prior + [e] && e in done && forall x :: x in prior ==> x in done;
      PreparingRelinquishes(h, prior, session);
      GaveUpStep(prior, e, session);
      RelinquishedStep(h + prior, e);
      assert h + done == (h + prior) + [e];
    }
  }

  lemma GaveUpStep(prior: History, e: Event, session: string)
    ensures GaveUp(prior + [e], session) <==> GaveUp(prior, session) || (Ran(e, session, HandoffPrepare) && Gives(e.act.reply))
  {
    hide Gives;
    assert forall x :: x in prior + [e] <==> x in prior || x == e;
  }

  /** One prepare step gives up exactly the browser it lists. */
  lemma StepRelinquishes(start: set<string>, h: History, step: History, session: string, kept: seq<PreparedHandoff>, added: seq<PreparedHandoff>)
    requires Relinquished(h) == start + NamesOf(kept)
    requires For(step, session) && forall e :: e in step ==> !Ran(e, session, HandoffResume)
    requires if GaveUp(step, session) then |added| == 1 && added[0].sessionName == session else added == []
    ensures Relinquished(h + step) == start + NamesOf(kept + added)
  {
    PreparingRelinquishes(h, step, session);
    if added == [] {
      assert kept + added == kept;
    } else {
      assert NamesOf(kept + added) == NamesOf(kept) + {session};
    }
  }

  /** `done` is one resume command per prepared entry, in order, with that entry's
      display environment, and `results` reports the replies. */
  ghost predicate RolledBack(done: History, bin: string, ps: seq<PreparedHandoff>, results: seq<RollbackResult>) {
    && |done| == |ps| == |results|
    && forall i :: 0 <= i < |ps| ==>
         && Ran(done[i], ps[i].sessionName, HandoffResume)
         && done[i].act.bin == bin && done[i].act.env == ps[i].displayEnvironment
         && results[i].sessionName == ps[i].sessionName
         && (results[i].success <==> Accepted(done[i].act.reply))
         && results[i].error == (if results[i].success then Null else Value(done[i].act.reply.error))
  }

  ghost function Recovered(results: seq<RollbackResult>): set<string> {
    set x | x in results && x.success :: x.sessionName
  }

  /** One rollback attempt takes back exactly the browser it reports. */
  lemma StepRecovers(start: set<string>, h: History, e: Event, results: seq<RollbackResult>, result: RollbackResult)
    requires Relinquished(h) == start - Recovered(results)
    requires Ran(e, result.sessionName, HandoffResume) && (result.success <==> Accepted(e.act.reply))
    ensures Relinquished(h + [e]) == start - Recovered(results + [result])
  {
    RelinquishedStep(h, e);
    assert Recovered(results + [result]) == Recovered(results) + if result.success then {result.sessionName} else {};
  }

  lemma RolledBackStep(done: History, bin: string, ps: seq<PreparedHandoff>, results: seq<RollbackResult>, e: Event, p: PreparedHandoff, result: RollbackResult)
    requires RolledBack(done, bin, ps, results)
    requires Ran(e, p.sessionName, HandoffResume) && e.act.bin == bin && e.act.env == p.displayEnvironment
    requires result == RollbackResult(p.sessionName, Accepted(e.act.reply), if Accepted(e.act.reply) then Null else Value(e.act.reply.error))
    ensures RolledBack(done + [e], bin, ps + [p], results + [result])
  {}

  lemma RolledBackNothing(bin: string)
    ensures RolledBack([], bin, [], []) && Recovered([]) == {}
  {}

  lemma NothingKept(clientBin: string)
    ensures NamesOf([]) == {} && AllBacked([], clientBin, []) && ClosesOnlyIdle([])
  {}

  /** A rollback whose every attempt succeeds takes back every prepared browser. */
  lemma FullRollbackRecoversAll(done: History, bin: string, ps: seq<PreparedHandoff>, results: seq<RollbackResult>)
    requires RolledBack(done, bin, ps, results) && forall x :: x in results ==> x.success
    ensures Recovered(results) == NamesOf(ps)
  {
    forall s | s in NamesOf(ps) ensures s in Recovered(results) {
      var i :| 0 <= i < |ps| && ps[i].sessionName == s;
      assert results[i] in results && results[i].sessionName == s;
    }
    forall s | s in Recovered(results) ensures s in NamesOf(ps) {
      var i :| 0 <= i < |results| && results[i].sessionName == s;
      assert ps[i] in ps;
    }
  }

  /** Different sessions stay different in either list. */
  ghost predicate AllDifferent(names: seq<string>) {
    forall i, j :: 0 <= i < j < |names| ==> names[i] != names[j]
  }

  lemma {:induction false} PickedAreDifferent(sessions: seq<string>, flags: seq<bool>, v: bool)
    requires |sessions| == |flags| && AllDifferent(sessions)
    ensures forall s :: s in Pick(sessions, flags, v) ==> s in sessions
    ensures AllDifferent(Pick(sessions, flags, v))
  {
    if sessions != [] {
      var prior, last := sessions[..|sessions|-1], sessions[|sessions|-1];
      PickedAreDifferent(prior, flags[..|flags|-1], v);
      assert forall s :: s in prior ==> s != last;
      var picked := Pick(prior, flags[..|flags|-1], v);
      assert forall i :: 0 <= i < |picked| ==> picked[i] in picked;
    }
  }

  lemma NamesDistinct(ps: seq<PreparedHandoff>)
    requires AllDifferent(Names(ps))
    ensures Distinct(ps)
  {
    var names := Names(ps);
    assert forall i :: 0 <= i < |ps| ==> names[i] == ps[i].sessionName;
  }

  lemma BackedIsNormalised(done: History, clientBin: string, ps: seq<PreparedHandoff>)
    requires AllBacked(done, clientBin, ps)
    ensures forall p :: p in ps ==> Normalised(p)
  {}
}
