/** What the acts of the resume phase say about its report, exit by exit
    (scripts/publish-local-dashboard-runtime.js:775-909). */
module ResumeReport {
  import opened JsValues
  import opened HandoffIdentity
  import opened HandoffWorld
  import opened HandoffReport

  /** A report entry produced by a resume command of this pass. */
  predicate Fresh(q: ResumedHandoff) {
    !q.alreadyResumed && !q.staleAttachedEndpointDropped
  }

  /** The identity guarantee: same session, and the browser PID and CDP endpoint
      wherever the prepared handoff recorded one. A freshly attached PID may
      differ only for an attached external browser whose stale PID was dropped. */
  predicate Conserves(p: PreparedHandoff, q: ResumedHandoff) {
    && q.sessionName == p.sessionName
    && (p.browserPid.Value? ==> q.browserPid == p.browserPid)
    && (Truthy(p.cdpUrl) ==> q.cdpUrl == p.cdpUrl)
    && (p.browserPid.Value? && Fresh(q) && q.attachedBrowserPid != p.browserPid ==>
          q.staleBrowserPidDropped && q.attachedBrowserPid == Null && p.host == Value("attached_existing"))
    && (q.staleAttachedEndpointDropped ==> p.host == Value("attached_existing") && p.browserPid == Null && q.browserPid == Null)
  }

  // The three entries

  function DroppedEntry(p: PreparedHandoff): ResumedHandoff {
    ResumedHandoff(
      p.sessionName, Null, Null, false, true, p.cdpUrl, OrNull(p.runtimeProfile), Value(0), Truthy(p.handoffPath), Null, false)
  }

  function AdoptedEntry(p: PreparedHandoff, b: BrowserRecord, daemonPid: Js<int>): ResumedHandoff {
    ResumedHandoff(
      p.sessionName, OrNull(OrElse(b.pid, p.browserPid)), Undefined, false, false, OrNull(b.cdpEndpoint),
      OrNull(OrElse(b.profileId, p.runtimeProfile)), b.validTabs, Truthy(p.handoffPath), daemonPid, true)
  }

  function ResumedEntry(p: PreparedHandoff, data: ReplyData, daemonPid: Js<int>): ResumedHandoff {
    var stale := StaleAttachedPidDropped(p, data);
    ResumedHandoff(
      p.sessionName, if stale then p.browserPid else OrNull(data.browserPid), OrNull(data.browserPid), stale, false,
      OrNull(data.cdpUrl), OrNull(data.runtimeProfile), OrNull(data.targetsReattached), data.retryRecordRemoved, daemonPid, false)
  }

  // The acts behind them

  predicate StaleEndpointCandidate(p: PreparedHandoff) {
    p.host == Value("attached_existing") && p.browserPid == Null && Truthy(p.cdpUrl)
  }

  /** How many acts an iteration spends on looking: PID file, service readback, and
      the endpoint where that may decide. */
  function LookLength(p: PreparedHandoff): nat {
    if StaleEndpointCandidate(p) then 3 else 2
  }

  ghost predicate Asked(done: History, bin: string, p: PreparedHandoff) {
    && |done| >= LookLength(p)
    && done[0].session == p.sessionName && done[0].act.ReadPidFile?
    && Ran(done[1], p.sessionName, ServiceBrowsers) && done[1].act.bin == bin && done[1].act.env == p.displayEnvironment
    && (StaleEndpointCandidate(p) ==>
          done[2].session == p.sessionName && done[2].act.ProbeEndpoint? && done[2].act.url == p.cdpUrl.v)
  }

  /** The attached endpoint was probed and did not answer. */
  ghost predicate EndpointDown(done: History, bin: string, p: PreparedHandoff)
    requires Asked(done, bin, p)
  {
    StaleEndpointCandidate(p) && !done[2].act.reachable
  }

  /** The browser the service offers under the prepared identity. */
  function OfferedBy(reply: Reply, p: PreparedHandoff): Option<BrowserRecord> {
    var readback := ReadbackOf(reply, p.sessionName, Some(p));
    if readback.success then readback.browser else None
  }

  /** The retry record is out of the way: none was ever named, or it is missing, or it
      was removed after it proved to be the one of `p`. */
  ghost predicate RecordSettled(acts: History, p: PreparedHandoff) {
    if !Truthy(p.handoffPath) then acts == []
    else
      || acts == [Event(p.sessionName, ReadRecord(p.handoffPath.v, Missing))]
      || (|acts| == 2 && ReadAsSame(acts[0], p) && acts[1] == Event(p.sessionName, RemoveRecord(p.handoffPath.v)))
  }

  predicate ReadAsSame(e: Event, p: PreparedHandoff)
    requires Truthy(p.handoffPath)
  {
    && e.session == p.sessionName && e.act.ReadRecord? && e.act.path == p.handoffPath.v
    && e.act.file.Parsed? && SameRecord(IdentityOf(e.act.file.fields), p)
  }

  /** The daemon that still pointed at the endpoint is gone: there was none, or it was
      seen dead, or it was terminated and then seen dead. */
  ghost predicate DaemonStopped(acts: History, session: string, pid: Js<int>) {
    if !Positive(pid) then acts == []
    else
      && |acts| > 0
      && (|| acts == [Event(session, Probe(pid.v, false))]
          || (&& |acts| > 2 && acts[0] == Event(session, Probe(pid.v, true)) && acts[1] == Event(session, SendSignal(pid.v, SIGTERM, true))
              && OnlyWaits(acts[2..]) && Waited(acts[2..], session, pid, true) && Last(acts, session, Probe(pid.v, false))))
  }

  ghost predicate DroppedAt(acts: History, p: PreparedHandoff, pid: Js<int>, n: nat) {
    n <= |acts| && RecordSettled(acts[..n], p) && DaemonStopped(acts[n..], p.sessionName, pid)
  }

  /** The service record has no pid key although a PID was prepared. */
  predicate PidMissing(b: BrowserRecord, p: PreparedHandoff) {
    p.browserPid.Value? && b.pid.Undefined?
  }

  /** The daemon is live and so is its browser, and the record is out of the way. */
  ghost predicate AdoptedBy(acts: History, p: PreparedHandoff, b: BrowserRecord, pid: Js<int>) {
    var n := if DecidedByProcess(b, p) then 2 else 1;
    && |acts| >= n && !PidMissing(b, p) && Positive(pid)
    && acts[0] == Event(p.sessionName, Probe(pid.v, true))
    && (DecidedByProcess(b, p) ==> acts[1] == Event(p.sessionName, Probe(EffectivePid(b, p).v, true)))
    && Active(b, p, DecidedByProcess(b, p))
    && RecordSettled(acts[n..], p)
  }

  predicate ProbedPid(e: Event, session: string, pid: int) {
    e.session == session && e.act.Probe? && e.act.probedPid == pid
  }

  /** No live daemon, or no active browser. */
  ghost predicate NotAdopted(acts: History, p: PreparedHandoff, b: BrowserRecord, pid: Js<int>) {
    if !Positive(pid) then acts == []
    else
      && |acts| > 0 && ProbedPid(acts[0], p.sessionName, pid.v)
      && if !acts[0].act.live then |acts| == 1
         else if DecidedByProcess(b, p) then
           |acts| == 2 && ProbedPid(acts[1], p.sessionName, EffectivePid(b, p).v) && !Active(b, p, acts[1].act.live)
         else |acts| == 1 && !Active(b, p, false)
  }

  ghost predicate PassedOver(acts: History, p: PreparedHandoff, offer: Option<BrowserRecord>, pid: Js<int>) {
    if offer.None? then acts == [] else !PidMissing(offer.value, p) && NotAdopted(acts, p, offer.value, pid)
  }

  /** Resume commands, each after a refusal of the one before. */
  ghost predicate Attempts(acts: History, bin: string, p: PreparedHandoff) {
    && |acts| > 0 && For(acts, p.sessionName)
    && (forall e :: e in acts ==>
          e.act.Sleep? || (e.act.Run? && e.act.command.HandoffResume? && e.act.bin == bin && e.act.env == p.displayEnvironment))
    && acts[|acts|-1].act.Run?
    && (forall e :: e in acts[..|acts|-1] && e.act.Run? ==> !Accepted(e.act.reply))
    && 1 <= Count(acts, p.sessionName, HandoffResume) <= RESUME_ATTEMPTS
    && (!Accepted(acts[|acts|-1].act.reply) ==> Count(acts, p.sessionName, HandoffResume) == RESUME_ATTEMPTS)
  }

  predicate Verified(p: PreparedHandoff, reply: Reply) {
    Accepted(reply) && !PidChanged(p, reply.data) && !EndpointChanged(p, reply.data)
  }

  /** An accepted resume that kept the identity, and a look at the new PID file. */
  ghost predicate ResumedBy(acts: History, bin: string, p: PreparedHandoff, q: ResumedHandoff) {
    && |acts| > 1 && Attempts(acts[..|acts|-1], bin, p) && Verified(p, acts[|acts|-2].act.reply)
    && acts[|acts|-1] == Event(p.sessionName, ReadPidFile(q.daemonPid))
    && q == ResumedEntry(p, acts[|acts|-2].act.reply.data, q.daemonPid)
  }

  ghost predicate ResumedAfter(acts: History, bin: string, p: PreparedHandoff, offer: Option<BrowserRecord>, pid: Js<int>, q: ResumedHandoff, n: nat) {
    n <= |acts| && PassedOver(acts[..n], p, offer, pid) && ResumedBy(acts[n..], bin, p, q)
  }

  /** What follows the looking, for each of the three exits. */
  ghost predicate Outcome(acts: History, bin: string, p: PreparedHandoff, pid: Js<int>, offer: Option<BrowserRecord>, down: bool, q: ResumedHandoff) {
    if down then q == DroppedEntry(p) && exists n: nat :: DroppedAt(acts, p, pid, n)
    else if q.alreadyResumed then offer.Some? && q == AdoptedEntry(p, offer.value, pid) && AdoptedBy(acts, p, offer.value, pid)
    else exists n: nat :: ResumedAfter(acts, bin, p, offer, pid, q, n)
  }

  /** The acts of an iteration say exactly why its entry reads as it does. */
  ghost predicate Supported(done: History, bin: string, p: PreparedHandoff, q: ResumedHandoff) {
    && !LacksCustody(p) && Asked(done, bin, p)
    && Outcome(done[LookLength(p)..], bin, p, done[0].act.pid, OfferedBy(done[1].act.reply, p), EndpointDown(done, bin, p), q)
  }

  lemma SupportedFrom(head: History, tail: History, bin: string, p: PreparedHandoff, q: ResumedHandoff)
    requires !LacksCustody(p) && Asked(head, bin, p) && |head| == LookLength(p)
    requires Outcome(tail, bin, p, head[0].act.pid, OfferedBy(head[1].act.reply, p), EndpointDown(head, bin, p), q)
    ensures Supported(head + tail, bin, p, q)
  {
    hide Outcome, OfferedBy, LacksCustody;
    var done := head + tail;
    assert done[|head|..] == tail && done[0] == head[0] && done[1] == head[1];
    assert StaleEndpointCandidate(p) ==> done[2] == head[2];
  }

  // Identity

  lemma OfferMatches(reply: Reply, p: PreparedHandoff)
    requires OfferedBy(reply, p).Some?
    ensures Matches(OfferedBy(reply, p).value, p)
  {
    SelectionIsUnambiguous(reply.browsers, p.sessionName, Some(p), OfferedBy(reply, p).value);
  }

  lemma DroppedConserves(p: PreparedHandoff)
    requires StaleEndpointCandidate(p)
    ensures Conserves(p, DroppedEntry(p)) && !DroppedEntry(p).alreadyResumed && DroppedEntry(p).staleAttachedEndpointDropped
  {}

  lemma AdoptedConserves(p: PreparedHandoff, b: BrowserRecord, pid: Js<int>)
    requires Normalised(p) && Matches(b, p)
    ensures Conserves(p, AdoptedEntry(p, b, pid)) && AdoptedEntry(p, b, pid).alreadyResumed
  {}

  lemma ResumedConserves(p: PreparedHandoff, reply: Reply, pid: Js<int>)
    requires Normalised(p) && Verified(p, reply)
    ensures Conserves(p, ResumedEntry(p, reply.data, pid)) && Fresh(ResumedEntry(p, reply.data, pid))
  {
    hide Accepted;
  }

  lemma ResumedByConserves(acts: History, bin: string, p: PreparedHandoff, q: ResumedHandoff)
    requires Normalised(p) && ResumedBy(acts, bin, p, q)
    ensures Conserves(p, q) && Fresh(q)
  {
    hide Conserves, ResumedEntry, Accepted, Fresh;
    ResumedConserves(p, acts[|acts|-2].act.reply, q.daemonPid);
  }

  /** Every supported entry conserves the prepared identity. */
  lemma SupportedConserves(done: History, bin: string, p: PreparedHandoff, q: ResumedHandoff)
    requires Normalised(p) && Supported(done, bin, p, q)
    ensures Conserves(p, q)
  {
    hide Conserves, AdoptedEntry, ResumedEntry, DroppedEntry, Accepted, Matches, OfferedBy, Attempts, PassedOver, AdoptedBy, DroppedAt, Normalised;
    if EndpointDown(done, bin, p) {
      DroppedConserves(p);
    } else if q.alreadyResumed {
      OfferMatches(done[1].act.reply, p);
      AdoptedConserves(p, OfferedBy(done[1].act.reply, p).value, done[0].act.pid);
    } else {
      var acts := done[LookLength(p)..];
      var n: nat :| ResumedAfter(acts, bin, p, OfferedBy(done[1].act.reply, p), done[0].act.pid, q, n);
      ResumedByConserves(acts[n..], bin, p, q);
    }
  }

  // Which exit was taken can be read off the flags

  lemma RecordActs(acts: History, p: PreparedHandoff)
    requires RecordSettled(acts, p)
    ensures For(acts, p.sessionName) && HandsOff(acts)
  {
    hide SameRecord;
  }

  lemma StoppingActs(acts: History, session: string, pid: Js<int>)
    requires DaemonStopped(acts, session, pid)
    ensures forall e :: e in acts ==> !e.act.Run?
  {
    if |acts| > 2 {
      assert acts == [acts[0], acts[1]] + acts[2..];
    }
  }

  lemma DroppedActs(acts: History, p: PreparedHandoff, pid: Js<int>, n: nat)
    requires DroppedAt(acts, p, pid, n)
    ensures forall e :: e in acts ==> !e.act.Run?
  {
    hide RecordSettled, DaemonStopped;
    RecordActs(acts[..n], p);
    StoppingActs(acts[n..], p.sessionName, pid);
    assert acts == acts[..n] + acts[n..];
  }

  lemma AdoptedActs(acts: History, p: PreparedHandoff, b: BrowserRecord, pid: Js<int>)
    requires AdoptedBy(acts, p, b, pid)
    ensures forall e :: e in acts ==> !e.act.Run?
  {
    hide RecordSettled, Active, DecidedByProcess, EffectivePid, PidMissing;
    var n := if DecidedByProcess(b, p) then 2 else 1;
    RecordActs(acts[n..], p);
    assert acts == acts[..n] + acts[n..];
  }

  lemma LookActs(done: History, bin: string, p: PreparedHandoff)
    requires Asked(done, bin, p)
    ensures forall e :: e in done[..LookLength(p)] ==> !e.act.SendSignal? && (e.act.Run? ==> e.act.command.ServiceBrowsers?)
    ensures done == done[..LookLength(p)] + done[LookLength(p)..]
  {}

  lemma ResumedRan(acts: History, bin: string, p: PreparedHandoff, q: ResumedHandoff)
    requires ResumedBy(acts, bin, p, q)
    ensures Fresh(q) && exists e :: e in acts && Ran(e, p.sessionName, HandoffResume) && Accepted(e.act.reply)
  {
    hide Accepted, PidChanged, EndpointChanged, StaleAttachedPidDropped;
    var attempts := acts[..|acts|-1];
    var e := attempts[|attempts|-1];
    assert e in attempts && e == acts[|acts|-2] && e in acts;
  }

  lemma DroppedFlags(p: PreparedHandoff)
    ensures var q := DroppedEntry(p); q.staleAttachedEndpointDropped && !q.alreadyResumed
  {}

  lemma AdoptedFlags(p: PreparedHandoff, b: BrowserRecord, pid: Js<int>)
    ensures var q := AdoptedEntry(p, b, pid); !q.staleAttachedEndpointDropped && q.alreadyResumed
  {}

  lemma OutcomeIsReported(acts: History, bin: string, p: PreparedHandoff, pid: Js<int>, offer: Option<BrowserRecord>, down: bool, q: ResumedHandoff)
    requires Outcome(acts, bin, p, pid, offer, down, q)
    ensures q.staleAttachedEndpointDropped <==> down
    ensures Fresh(q) <==> exists e :: e in acts && Ran(e, p.sessionName, HandoffResume) && Accepted(e.act.reply)
  {
    hide Accepted, AdoptedBy, DroppedAt, PassedOver, ResumedBy, AdoptedEntry, DroppedEntry;
    if down {
      var n: nat :| DroppedAt(acts, p, pid, n);
      DroppedActs(acts, p, pid, n);
      DroppedFlags(p);
    } else if q.alreadyResumed {
      AdoptedActs(acts, p, offer.value, pid);
      AdoptedFlags(p, offer.value, pid);
    } else {
      var n: nat :| ResumedAfter(acts, bin, p, offer, pid, q, n);
      ResumedRan(acts[n..], bin, p, q);
      assert acts == acts[..n] + acts[n..];
    }
  }

  /** A resume command was accepted exactly if the entry says so, and an endpoint was
      dropped exactly if it was found down. */
  lemma ExitIsReported(done: History, bin: string, p: PreparedHandoff, q: ResumedHandoff)
    requires Supported(done, bin, p, q)
    ensures q.staleAttachedEndpointDropped <==> EndpointDown(done, bin, p)
    ensures Fresh(q) <==> exists e :: e in done && Ran(e, p.sessionName, HandoffResume) && Accepted(e.act.reply)
  {
    hide Accepted, OfferedBy, LacksCustody, Outcome;
    LookActs(done, bin, p);
    OutcomeIsReported(done[LookLength(p)..], bin, p, done[0].act.pid, OfferedBy(done[1].act.reply, p), EndpointDown(done, bin, p), q);
  }

  /** A fresh report entry repeats an accepted resume reply. */
  ghost predicate BackedByResume(done: History, installBin: string, p: PreparedHandoff, q: ResumedHandoff) {
    exists reply ::
      && Event(p.sessionName, Run(installBin, HandoffResume, p.displayEnvironment, reply)) in done
      && Accepted(reply)
      && q.attachedBrowserPid == OrNull(reply.data.browserPid)
      && q.staleBrowserPidDropped == StaleAttachedPidDropped(p, reply.data)
      && q.browserPid == (if q.staleBrowserPidDropped then p.browserPid else OrNull(reply.data.browserPid))
      && q.cdpUrl == OrNull(reply.data.cdpUrl)
  }

  ghost predicate ResumedAndLeftAlone(done: History, installBin: string, p: PreparedHandoff) {
    exists k :: 0 <= k < |done|
      && Ran(done[k], p.sessionName, HandoffResume) && Accepted(done[k].act.reply)
      && done[k].act.bin == installBin && done[k].act.env == p.displayEnvironment
      && Undisturbed(done[k+1..], p.sessionName)
  }

  lemma ResumedIsBacked(head: History, acts: History, bin: string, p: PreparedHandoff, q: ResumedHandoff)
    requires ResumedBy(acts, bin, p, q)
    ensures BackedByResume(head + acts, bin, p, q) && ResumedAndLeftAlone(head + acts, bin, p)
  {
    hide Accepted, PidChanged, EndpointChanged, StaleAttachedPidDropped, Count;
    var attempts, done := acts[..|acts|-1], head + acts;
    var k := |head| + |acts| - 2;
    var e := attempts[|attempts|-1];
    assert e in attempts && done[k] == e && e in done && done[k+1..] == [acts[|acts|-1]];
    assert e == Event(p.sessionName, Run(bin, HandoffResume, p.displayEnvironment, e.act.reply));
  }

  /** What a fresh entry rests on. */
  lemma FreshIsBacked(done: History, bin: string, p: PreparedHandoff, q: ResumedHandoff)
    requires Supported(done, bin, p, q) && Fresh(q)
    ensures BackedByResume(done, bin, p, q) && ResumedAndLeftAlone(done, bin, p)
  {
    hide Accepted, OfferedBy, LacksCustody, AdoptedBy, DroppedAt, PassedOver, ResumedBy, BackedByResume, ResumedAndLeftAlone;
    var head, acts := done[..LookLength(p)], done[LookLength(p)..];
    LookActs(done, bin, p);
    var n: nat :| ResumedAfter(acts, bin, p, OfferedBy(done[1].act.reply, p), done[0].act.pid, q, n);
    ResumedIsBacked(head + acts[..n], acts[n..], bin, p, q);
    assert done == head + acts[..n] + acts[n..];
  }

  // What is never done, whatever the exit

  /** The removal at `k` is of the record of `p`, just read and found to be the same. */
  ghost predicate RemovalAt(done: History, p: PreparedHandoff, k: nat)
    requires k < |done|
  {
    k > 0 && Truthy(p.handoffPath) && ReadAsSame(done[k-1], p) && done[k] == Event(p.sessionName, RemoveRecord(p.handoffPath.v))
  }

  /** The signal at `k` terminates the daemon `pid`, just seen live, of a stale endpoint. */
  ghost predicate SignalAt(done: History, p: PreparedHandoff, pid: Js<int>, k: nat)
    requires k < |done|
  {
    && k > 0 && StaleEndpointCandidate(p) && pid.Value?
    && done[k-1] == Event(p.sessionName, Probe(pid.v, true))
    && done[k].act.SendSignal? && done[k].act.target == pid.v && done[k].act.signal == SIGTERM
  }

  /** Records are removed and daemons signalled only so. */
  ghost predicate Careful(done: History, p: PreparedHandoff, pid: Js<int>) {
    forall k :: 0 <= k < |done| ==>
      && (done[k].act.RemoveRecord? ==> RemovalAt(done, p, k))
      && (done[k].act.SendSignal? ==> SignalAt(done, p, pid, k))
  }

  lemma CarefulConcat(a: History, b: History, p: PreparedHandoff, pid: Js<int>)
    requires Careful(a, p, pid) && Careful(b, p, pid)
    ensures Careful(a + b, p, pid)
  {
    hide ReadAsSame, StaleEndpointCandidate;
    var all := a + b;
    forall k | 0 <= k < |all|
      ensures all[k].act.RemoveRecord? ==> RemovalAt(all, p, k)
      ensures all[k].act.SendSignal? ==> SignalAt(all, p, pid, k)
    {
      if k < |a| {
        assert all[k] == a[k] && (k > 0 ==> all[k-1] == a[k-1]);
      } else {
        assert all[k] == b[k-|a|] && (k > |a| ==> all[k-1] == b[k-|a|-1]);
      }
    }
  }

  lemma CarefulWithout(done: History, p: PreparedHandoff, pid: Js<int>)
    requires forall e :: e in done ==> !e.act.RemoveRecord? && !e.act.SendSignal?
    ensures Careful(done, p, pid)
  {
    forall k | 0 <= k < |done| ensures !done[k].act.RemoveRecord? && !done[k].act.SendSignal? {
      assert done[k] in done;
    }
  }

  lemma RecordIsCareful(acts: History, p: PreparedHandoff, pid: Js<int>)
    requires RecordSettled(acts, p)
    ensures Careful(acts, p, pid)
  {
    hide SameRecord, StaleEndpointCandidate;
  }

  /** An iteration that threw: only careful acts for that session, and the evidence. */
  ghost predicate RefusedBy(step: History, p: PreparedHandoff, err: HandoffError) {
    && For(step, p.sessionName) && Evidence(err, p.sessionName, Some(p), step)
    && (step != [] ==> step[0].act.ReadPidFile? && Careful(step, p, step[0].act.pid))
  }

  /** The errors an iteration can end with once custody is settled. */
  predicate Refusal(err: HandoffError) {
    !err.FoundDifferentEndpoint? && !err.LacksDisplayCustody?
  }

  // Assembling an iteration

  lemma SettledRecord(acts: History, p: PreparedHandoff, pid: Js<int>)
    requires RecordSettled(acts, p)
    ensures For(acts, p.sessionName) && HandsOff(acts) && Careful(acts, p, pid)
  {
    RecordActs(acts, p);
    RecordIsCareful(acts, p, pid);
  }

  lemma DroppedParts(removing: History, stopping: History, p: PreparedHandoff, pid: Js<int>)
    requires RecordSettled(removing, p) && DaemonStopped(stopping, p.sessionName, pid)
    ensures DroppedAt(removing + stopping, p, pid, |removing|)
  {
    hide RecordSettled, DaemonStopped;
    assert (removing + stopping)[..|removing|] == removing && (removing + stopping)[|removing|..] == stopping;
  }

  lemma AdoptedParts(looking: History, removing: History, p: PreparedHandoff, b: BrowserRecord, pid: Js<int>)
    requires !PidMissing(b, p) && Positive(pid) && Active(b, p, DecidedByProcess(b, p)) && RecordSettled(removing, p)
    requires looking == [Event(p.sessionName, Probe(pid.v, true))]
               + if DecidedByProcess(b, p) then [Event(p.sessionName, Probe(EffectivePid(b, p).v, true))] else []
    ensures AdoptedBy(looking + removing, p, b, pid)
  {
    hide RecordSettled, Active, DecidedByProcess, EffectivePid, PidMissing;
    var n := if DecidedByProcess(b, p) then 2 else 1;
    assert (looking + removing)[n..] == removing;
  }

  lemma ResumedParts(passing: History, resuming: History, bin: string, p: PreparedHandoff, offer: Option<BrowserRecord>, pid: Js<int>, q: ResumedHandoff)
    requires PassedOver(passing, p, offer, pid) && ResumedBy(resuming, bin, p, q) && Fresh(q)
    ensures Outcome(passing + resuming, bin, p, pid, offer, false, q)
  {
    hide PassedOver, ResumedBy;
    var acts := passing + resuming;
    assert acts[..|passing|] == passing && acts[|passing|..] == resuming;
    assert ResumedAfter(acts, bin, p, offer, pid, q, |passing|);
  }

  lemma PassedActs(acts: History, p: PreparedHandoff, offer: Option<BrowserRecord>, pid: Js<int>)
    requires PassedOver(acts, p, offer, pid)
    ensures For(acts, p.sessionName) && OnlyWaits(acts) && Careful(acts, p, pid)
  {
    hide Active, DecidedByProcess, EffectivePid, PidMissing, ReadAsSame, StaleEndpointCandidate;
  }

  lemma AttemptActs(acts: History, bin: string, p: PreparedHandoff, pid: Js<int>)
    requires Attempts(acts, bin, p)
    ensures For(acts, p.sessionName) && Careful(acts, p, pid) && Count(acts, p.sessionName, HandoffResume) <= RESUME_ATTEMPTS
    ensures forall e :: e in acts && e.act.Run? ==> e.act.command.HandoffResume?
  {
    hide Count, Accepted, ReadAsSame, StaleEndpointCandidate;
    CarefulWithout(acts, p, pid);
  }

  lemma ResumedActs(acts: History, bin: string, p: PreparedHandoff, q: ResumedHandoff, pid: Js<int>)
    requires ResumedBy(acts, bin, p, q)
    ensures For(acts, p.sessionName) && Careful(acts, p, pid) && Count(acts, p.sessionName, HandoffResume) <= RESUME_ATTEMPTS
    ensures forall e :: e in acts && e.act.Run? ==> e.act.command.HandoffResume?
  {
    hide Count, Accepted, ReadAsSame, StaleEndpointCandidate, Attempts, Verified, ResumedEntry, Careful;
    var attempts, read := acts[..|acts|-1], acts[|acts|-1];
    AttemptActs(attempts, bin, p, pid);
    assert acts == attempts + [read];
    CountStep(attempts, read, p.sessionName, HandoffResume);
    CarefulWithout([read], p, pid);
    CarefulConcat(attempts, [read], p, pid);
  }

  lemma AttemptsEnd(acts: History, bin: string, p: PreparedHandoff)
    requires Attempts(acts, bin, p)
    ensures |acts| > 0 && acts[|acts|-1].session == p.sessionName && acts[|acts|-1].act.Run?
  {
    hide Count;
  }

  lemma NothingToStop(p: PreparedHandoff, pid: Js<int>, probed: History)
    requires probed == if Positive(pid) then [Event(p.sessionName, Probe(pid.v, false))] else []
    ensures For(probed, p.sessionName) && Careful(probed, p, pid) && DaemonStopped(probed, p.sessionName, pid)
    ensures forall e :: e in probed ==> !e.act.Run?
  {
    hide ReadAsSame, StaleEndpointCandidate;
  }

  lemma TerminationActs(p: PreparedHandoff, pid: Js<int>, probe: Event, sent: Event)
    requires StaleEndpointCandidate(p) && pid.Value? && probe == Event(p.sessionName, Probe(pid.v, true))
    requires sent.session == p.sessionName && sent.act.SendSignal? && sent.act.target == pid.v && sent.act.signal == SIGTERM
    ensures For([probe, sent], p.sessionName) && Careful([probe, sent], p, pid)
    ensures forall e :: e in [probe, sent] ==> !e.act.Run?
  {}

  lemma StoppingParts(p: PreparedHandoff, pid: Js<int>, head: History, waited: History)
    requires Positive(pid) && head == [Event(p.sessionName, Probe(pid.v, true)), Event(p.sessionName, SendSignal(pid.v, SIGTERM, true))]
    requires Careful(head, p, pid) && For(waited, p.sessionName) && OnlyWaits(waited)
    ensures var done := head + waited;
            && For(done, p.sessionName) && Careful(done, p, pid) && (forall e :: e in done ==> !e.act.Run?)
            && (Waited(waited, p.sessionName, pid, true) ==> DaemonStopped(done, p.sessionName, pid))
  {
    hide Careful, Waited, For;
    WaitsOnly(waited);
    CarefulWithout(waited, p, pid);
    CarefulConcat(head, waited, p, pid);
    ForPair(head[0], head[1], p.sessionName);
    ForConcat(head, waited, p.sessionName);
    if Waited(waited, p.sessionName, pid, true) {
      WaitedEnds(waited, p.sessionName, pid, true);
      assert (head + waited)[2..] == waited;
    }
  }

  lemma ForPair(a: Event, b: Event, session: string)
    requires a.session == session && b.session == session
    ensures For([a, b], session)
  {}

  lemma NothingIsCareful(p: PreparedHandoff, pid: Js<int>)
    ensures For([], p.sessionName) && HandsOff([]) && Careful([], p, pid)
  {}

  lemma LookingOnly(looking: History, p: PreparedHandoff, pid: Js<int>)
    requires OnlyWaits(looking)
    ensures HandsOff(looking) && Careful(looking, p, pid)
  {
    CarefulWithout(looking, p, pid);
  }

  /** The acts of looking harm nothing. */
  lemma LookingIsCareful(head: History, bin: string, p: PreparedHandoff)
    requires Asked(head, bin, p) && |head| == LookLength(p)
    ensures Looks(p.sessionName, head) && Careful(head, p, head[0].act.pid)
  {
    CountZero(head, p.sessionName, HandoffResume);
    CarefulWithout(head, p, head[0].act.pid);
  }

  lemma DifferentPidShown(head: History, bin: string, p: PreparedHandoff)
    requires Asked(head, bin, p) && |head| == LookLength(p)
    requires var offer := OfferedBy(head[1].act.reply, p); offer.Some? && PidMissing(offer.value, p)
    ensures Evidence(FoundDifferentPid(p.sessionName), p.sessionName, Some(p), head)
  {
    hide ReadbackOf;
  }

  /** What no iteration exceeds, however it ends. */
  ghost predicate WithinLimits(done: History, p: PreparedHandoff) {
    && For(done, p.sessionName)
    && (forall e :: e in done && e.act.Run? ==> e.act.command.ServiceBrowsers? || e.act.command.HandoffResume?)
    && Count(done, p.sessionName, HandoffResume) <= RESUME_ATTEMPTS
    && (done != [] ==> done[0].act.ReadPidFile? && Careful(done, p, done[0].act.pid))
  }

  lemma LookedWithin(head: History, tail: History, bin: string, p: PreparedHandoff)
    requires Asked(head, bin, p) && |head| == LookLength(p)
    requires For(tail, p.sessionName) && Careful(tail, p, head[0].act.pid)
    requires forall e :: e in tail && e.act.Run? ==> e.act.command.HandoffResume?
    requires Count(tail, p.sessionName, HandoffResume) <= RESUME_ATTEMPTS
    ensures WithinLimits(head + tail, p)
  {
    hide Careful, Count;
    LookingIsCareful(head, bin, p);
    LooksFacts(p.sessionName, head);
    ForConcat(head, tail, p.sessionName);
    CarefulConcat(head, tail, p, head[0].act.pid);
    CountAppend(head, tail, p.sessionName, HandoffResume);
  }

  lemma RunsNoResume(tail: History, session: string)
    requires forall e :: e in tail ==> !e.act.Run?
    ensures Count(tail, session, HandoffResume) == 0
  {
    CountZero(tail, session, HandoffResume);
  }

  lemma RefusedWithin(done: History, p: PreparedHandoff, err: HandoffError)
    requires WithinLimits(done, p) && Evidence(err, p.sessionName, Some(p), done)
    ensures RefusedBy(done, p, err)
  {}

  lemma LimitFacts(done: History, p: PreparedHandoff)
    requires WithinLimits(done, p)
    ensures For(done, p.sessionName) && Count(done, p.sessionName, HandoffResume) <= RESUME_ATTEMPTS
  {}

  lemma NothingPassed(p: PreparedHandoff, pid: Js<int>)
    ensures PassedOver([], p, None, pid)
  {}

  lemma MissingPidWillNot(w: World, h: History, p: PreparedHandoff, pid: Js<int>, b: BrowserRecord)
    ensures WillReadopt(w, h, p, pid, b) ==> !PidMissing(b, p)
  {}

  lemma RefusalNames(done: History, p: PreparedHandoff, r: Result<ResumedHandoff, HandoffError>)
    requires r.Err? ==> RefusedBy(done, p, r.error)
    ensures r.Err? && r.error.LacksDisplayCustody? ==> r.error == LacksDisplayCustody(p.sessionName)
  {
    hide Careful, Shows, SeenActive, LacksCustody, For;
  }

  /** The iteration ended in the recovery branch. */
  lemma AdoptedOutcome(head: History, tail: History, bin: string, p: PreparedHandoff, r: Result<Option<ResumedHandoff>, HandoffError>)
    requires Normalised(p) && !LacksCustody(p) && Asked(head, bin, p) && |head| == LookLength(p) && !EndpointDown(head, bin, p)
    requires For(tail, p.sessionName) && HandsOff(tail) && Careful(tail, p, head[0].act.pid)
    requires var offer := OfferedBy(head[1].act.reply, p);
             && offer.Some?
             && (r.Ok? ==> r.value.Some? && r.value.value == AdoptedEntry(p, offer.value, head[0].act.pid) && AdoptedBy(tail, p, offer.value, head[0].act.pid))
             && (r.Err? && r.error.FoundDifferentPid? ==> PidMissing(offer.value, p) && tail == [] && r.error == FoundDifferentPid(p.sessionName))
    requires r.Err? && !r.error.FoundDifferentPid? ==> Evidence(r.error, p.sessionName, Some(p), tail)
    ensures var done := head + tail;
            && WithinLimits(done, p) && Undisturbed(done, p.sessionName)
            && (r.Ok? ==> r.value.value.alreadyResumed && Conserves(p, r.value.value) && Supported(done, bin, p, r.value.value))
            && (r.Err? ==> RefusedBy(done, p, r.error))
  {
    hide For, Careful, Count, AdoptedBy, Conserves, Supported, AdoptedEntry, OfferedBy, PidMissing, Evidence, LacksCustody, WithinLimits, RefusedBy, Looks, Undisturbed;
    var done := head + tail;
    RunsNoResume(tail, p.sessionName);
    LookedWithin(head, tail, bin, p);
    LookingIsCareful(head, bin, p);
    QuietTail(p.sessionName, head, tail);
    LooksFacts(p.sessionName, done);
    var offer := OfferedBy(head[1].act.reply, p);
    if r.Ok? {
      AdoptedFlags(p, offer.value, head[0].act.pid);
      SupportedFrom(head, tail, bin, p, r.value.value);
      SupportedConserves(done, bin, p, r.value.value);
    } else {
      if r.error.FoundDifferentPid? {
        DifferentPidShown(head, bin, p);
        assert head + tail == head;
      } else {
        EvidenceGrows(r.error, p.sessionName, Some(p), head, tail);
      }
      RefusedWithin(done, p, r.error);
    }
  }

  /** The iteration ended with resume commands. */
  lemma FreshOutcome(head: History, passing: History, resuming: History, bin: string, p: PreparedHandoff, r: Result<ResumedHandoff, HandoffError>)
    requires Normalised(p) && !LacksCustody(p) && Asked(head, bin, p) && |head| == LookLength(p) && !EndpointDown(head, bin, p)
    requires PassedOver(passing, p, OfferedBy(head[1].act.reply, p), head[0].act.pid)
    requires r.Ok? ==> ResumedBy(resuming, bin, p, r.value) && Fresh(r.value)
    requires r.Err? ==> Attempts(resuming, bin, p) && Evidence(r.error, p.sessionName, Some(p), resuming)
    ensures var done := head + (passing + resuming);
            && WithinLimits(done, p)
            && (r.Ok? ==> Conserves(p, r.value) && Supported(done, bin, p, r.value))
            && (r.Err? ==> RefusedBy(done, p, r.error))
  {
    hide For, Careful, Count, PassedOver, Conserves, Supported, OfferedBy, Evidence, LacksCustody, WithinLimits, RefusedBy, ResumedBy, Attempts, Outcome, Fresh;
    var pid, tail, session := head[0].act.pid, passing + resuming, p.sessionName;
    PassedActs(passing, p, OfferedBy(head[1].act.reply, p), pid);
    WaitsAreHandsOff(passing);
    RunsNoResume(passing, session);
    if r.Ok? {
      ResumedActs(resuming, bin, p, r.value, pid);
    } else {
      AttemptActs(resuming, bin, p, pid);
    }
    ForConcat(passing, resuming, session);
    CarefulConcat(passing, resuming, p, pid);
    CountAppend(passing, resuming, session, HandoffResume);
    LookedWithin(head, tail, bin, p);
    if r.Ok? {
      ResumedParts(passing, resuming, bin, p, OfferedBy(head[1].act.reply, p), pid, r.value);
      SupportedFrom(head, tail, bin, p, r.value);
      SupportedConserves(head + tail, bin, p, r.value);
    } else {
      EvidenceGrows(r.error, session, Some(p), passing, resuming);
      EvidenceGrows(r.error, session, Some(p), head, tail);
      RefusedWithin(head + tail, p, r.error);
    }
  }

  /** The iteration ended with a dropped endpoint, or on the way there. */
  lemma DroppedOutcome(head: History, tail: History, bin: string, p: PreparedHandoff, r: Result<ResumedHandoff, HandoffError>)
    requires Normalised(p) && !LacksCustody(p) && Asked(head, bin, p) && |head| == LookLength(p) && EndpointDown(head, bin, p)
    requires For(tail, p.sessionName) && Careful(tail, p, head[0].act.pid) && forall e :: e in tail ==> !e.act.Run?
    requires r.Ok? ==> r.value == DroppedEntry(p) && exists n: nat :: DroppedAt(tail, p, head[0].act.pid, n)
    requires r.Err? ==> Evidence(r.error, p.sessionName, Some(p), tail)
    ensures var done := head + tail;
            && WithinLimits(done, p)
            && (r.Ok? ==> Conserves(p, r.value) && Supported(done, bin, p, r.value))
            && (r.Err? ==> RefusedBy(done, p, r.error))
  {
    hide For, Careful, Count, DroppedAt, Conserves, Supported, DroppedEntry, OfferedBy, Evidence, LacksCustody, WithinLimits, RefusedBy, Asked;
    RunsNoResume(tail, p.sessionName);
    LookedWithin(head, tail, bin, p);
    if r.Ok? {
      SupportedFrom(head, tail, bin, p, r.value);
      SupportedConserves(head + tail, bin, p, r.value);
    } else {
      EvidenceGrows(r.error, p.sessionName, Some(p), head, tail);
      RefusedWithin(head + tail, p, r.error);
    }
  }

  // Looking

  /** Observations made before the iteration decides what to do. */
  ghost predicate Looks(session: string, done: History) {
    && For(done, session)
    && (forall e :: e in done && e.act.Run? ==> e.act.command.ServiceBrowsers?)
    && (forall e :: e in done ==> !e.act.SendSignal?)
    && Undisturbed(done, session)
    && Count(done, session, HandoffResume) == 0
  }

  lemma QuietTail(session: string, head: History, tail: History)
    requires Looks(session, head)
    requires For(tail, session) && HandsOff(tail)
    ensures Looks(session, head + tail)
  {
    CountZero(head + tail, session, HandoffResume);
  }

  lemma HeadIsQuiet(session: string, read: Event, asked: History)
    requires read.session == session && read.act.ReadPidFile? && |asked| == 1 && Ran(asked[0], session, ServiceBrowsers)
    ensures Looks(session, [read] + asked)
  {
    CountZero([read] + asked, session, HandoffResume);
  }

  lemma HeadWithProbe(session: string, head: History, probe: Event)
    requires Looks(session, head) && probe.session == session && probe.act.ProbeEndpoint?
    ensures Looks(session, head + [probe])
  {
    CountZero(head + [probe], session, HandoffResume);
  }

  /** What re-entry means for a session that already has its browser back: it is
      left alone, and either reported as already resumed or refused before any command. */
  ghost predicate Untouched(session: string, done: History, r: Result<ResumedHandoff, HandoffError>) {
    && Undisturbed(done, session)
    && (r.Ok? ==> r.value.alreadyResumed)
    && (r.Err? ==> r.error.LacksDisplayCustody? || r.error.RecordInvalid? || r.error.RecordChanged?)
  }

  /** A durable session answers the PID file and the service readback as promised. */
  lemma DurableReadback(w: World, h: History, bin: string, p: PreparedHandoff, existingPid: Js<int>, existing: Readback)
    requires Durable(w, h, bin, p)
    requires existingPid == (if Positive(w.pidFile(h, p.sessionName)) then w.pidFile(h, p.sessionName) else Null)
    requires existing == ReadbackOf(w.run(h + [Event(p.sessionName, ReadPidFile(existingPid))], bin, p.sessionName, ServiceBrowsers, p.displayEnvironment), p.sessionName, Some(p))
    ensures Positive(existingPid) && existing.success && existing.browser.Some?
    ensures exists daemon: nat :: existingPid == Value(daemon) && DurableWith(w, h, bin, p, daemon, existing.browser.value)
  {
    var daemon: nat, b: BrowserRecord :| DurableWith(w, h, bin, p, daemon, b);
    var read := [Event(p.sessionName, ReadPidFile(existingPid))];
    assert h + [] == h && Undisturbed([], p.sessionName) && Undisturbed(read, p.sessionName);
    assert HealthyAt(w, h + [], bin, p, daemon, b) && HealthyAt(w, h + read, bin, p, daemon, b);
  }

  lemma DurableReachable(w: World, h: History, bin: string, p: PreparedHandoff, head: History)
    requires Durable(w, h, bin, p) && Looks(p.sessionName, head) && Truthy(p.cdpUrl)
    ensures w.reachable(h + head, p.cdpUrl.v)
  {
    var daemon: nat, b: BrowserRecord :| DurableWith(w, h, bin, p, daemon, b);
    assert HealthyAt(w, h + head, bin, p, daemon, b);
  }

  /** The daemon and the browser will both be seen alive from `h` on. */
  predicate WillReadopt(w: World, h: History, p: PreparedHandoff, existingPid: Js<int>, b: BrowserRecord) {
    && Positive(existingPid) && !b.pid.Undefined? && w.live(h, existingPid.v)
    && var later := h + [Event(p.sessionName, Probe(existingPid.v, true))];
       Active(b, p, EffectivePid(b, p).Value? && w.live(later, EffectivePid(b, p).v))
  }

  lemma LooksFacts(session: string, done: History)
    requires Looks(session, done)
    ensures For(done, session) && Undisturbed(done, session) && Count(done, session, HandoffResume) == 0
    ensures forall e :: e in done && e.act.Run? ==> e.act.command.ServiceBrowsers?
  {}

  lemma DurableReadoption(w: World, h: History, bin: string, p: PreparedHandoff, head: History, existingPid: Js<int>, b: BrowserRecord)
    requires Looks(p.sessionName, head)
    requires exists daemon: nat :: existingPid == Value(daemon) && DurableWith(w, h, bin, p, daemon, b)
    ensures WillReadopt(w, h + head, p, existingPid, b)
  {
    var daemon: nat :| existingPid == Value(daemon) && DurableWith(w, h, bin, p, daemon, b);
    var probe := [Event(p.sessionName, Probe(existingPid.v, true))];
    assert Undisturbed(head + probe, p.sessionName);
    assert HealthyAt(w, h + head, bin, p, daemon, b) && HealthyAt(w, h + (head + probe), bin, p, daemon, b);
    assert h + (head + probe) == h + head + probe;
  }

  // The whole pass

  /** Every entry of that name is durable from `h` on. */
  ghost predicate AllDurable(w: World, h: History, bin: string, ps: seq<PreparedHandoff>, session: string) {
    forall p :: p in ps && p.sessionName == session ==> Durable(w, h, bin, p)
  }

  /** `done` splits into one part per entry, in order, and each part supports its entry. */
  ghost predicate Restored(ps: seq<PreparedHandoff>, done: History, bin: string, qs: seq<ResumedHandoff>)
    decreases |ps|
  {
    && |qs| == |ps|
    && if ps == [] then done == []
       else
         var last := |ps| - 1;
         exists n: nat ::
           && n <= |done| && For(done[n..], ps[last].sessionName) && Supported(done[n..], bin, ps[last], qs[last])
           && Restored(ps[..last], done[..n], bin, qs[..last])
  }

  lemma RestoredStep(ps: seq<PreparedHandoff>, before: History, bin: string, qs: seq<ResumedHandoff>, p: PreparedHandoff, step: History, q: ResumedHandoff)
    requires Restored(ps, before, bin, qs) && For(step, p.sessionName) && Supported(step, bin, p, q)
    ensures Restored(ps + [p], before + step, bin, qs + [q])
  {
    hide Supported, For;
    RestoredLength(ps, before, bin, qs);
    var all, entries, results := before + step, ps + [p], qs + [q];
    assert all[..|before|] == before && all[|before|..] == step;
    assert entries[..|ps|] == ps && results[..|ps|] == qs && entries[|ps|] == p && results[|ps|] == q;
  }

  lemma RestoredLength(ps: seq<PreparedHandoff>, done: History, bin: string, qs: seq<ResumedHandoff>)
    requires Restored(ps, done, bin, qs)
    ensures |qs| == |ps|
  {}

  /** What a restored list means: identity is conserved entry by entry, nobody resumed
      lacks custody of its display, and nobody else was touched. */
  lemma {:induction false} RestoredFacts(ps: seq<PreparedHandoff>, done: History, bin: string, qs: seq<ResumedHandoff>)
    requires Restored(ps, done, bin, qs) && forall p :: p in ps ==> Normalised(p)
    ensures |qs| == |ps| && forall i :: 0 <= i < |ps| ==> Conserves(ps[i], qs[i]) && !LacksCustody(ps[i])
    ensures forall e :: e in done ==> e.session in Names(ps)
    decreases |ps|
  {
    hide Conserves, Supported, Normalised;
    if ps != [] {
      var last := |ps| - 1;
      var n: nat :|
        && n <= |done| && For(done[n..], ps[last].sessionName) && Supported(done[n..], bin, ps[last], qs[last])
        && Restored(ps[..last], done[..n], bin, qs[..last]);
      RestoredFacts(ps[..last], done[..n], bin, qs[..last]);
      SupportedConserves(done[n..], bin, ps[last], qs[last]);
      SupportedHasCustody(done[n..], bin, ps[last], qs[last]);
      assert done == done[..n] + done[n..] && Names(ps) == Names(ps[..last]) + [ps[last].sessionName];
      forall i | 0 <= i < |ps| ensures Conserves(ps[i], qs[i]) && !LacksCustody(ps[i]) {
        assert i < last ==> ps[..last][i] == ps[i] && qs[..last][i] == qs[i];
      }
    }
  }

  lemma SupportedHasCustody(done: History, bin: string, p: PreparedHandoff, q: ResumedHandoff)
    requires Supported(done, bin, p, q)
    ensures !LacksCustody(p)
  {}

  /** The pass stopped at `ps[|qs|]`: the entries before are restored, later ones were
      not touched. */
  ghost predicate RefusedAt(ps: seq<PreparedHandoff>, done: History, bin: string, qs: seq<ResumedHandoff>, err: HandoffError)
    requires |qs| < |ps|
  {
    exists n: nat :: n <= |done| && Restored(ps[..|qs|], done[..n], bin, qs) && RefusedBy(done[n..], ps[|qs|], err)
  }

  /** What the resume loop has established after the entries `ps`. */
  ghost predicate Passed(w: World, h: History, bin: string, ps: seq<PreparedHandoff>, done: History, qs: seq<ResumedHandoff>) {
    && |qs| == |ps|
    && Restored(ps, done, bin, qs)
    && (forall i :: 0 <= i < |ps| ==> Conserves(ps[i], qs[i]))
    && (forall e :: e in done ==> e.session in Names(ps))
    && (forall s :: Count(done, s, HandoffResume) <= RESUME_ATTEMPTS * multiset(Names(ps))[s])
    && (forall s :: AllDurable(w, h, bin, ps, s) ==> Undisturbed(done, s))
    && (forall i :: 0 <= i < |ps| && AllDurable(w, h, bin, ps, ps[i].sessionName) ==> qs[i].alreadyResumed)
    && (Distinct(ps) ==> forall i :: 0 <= i < |ps| && Fresh(qs[i]) ==> ResumedAndLeftAlone(done, bin, ps[i]))
  }

  lemma PassedNothing(w: World, h: History, bin: string, ps: seq<PreparedHandoff>)
    requires ps == []
    ensures Passed(w, h, bin, ps, [], [])
  {}

  lemma PassedFacts(w: World, h: History, bin: string, ps: seq<PreparedHandoff>, done: History, qs: seq<ResumedHandoff>)
    requires Passed(w, h, bin, ps, done, qs)
    ensures |qs| == |ps| && Restored(ps, done, bin, qs) && forall i :: 0 <= i < |ps| ==> Conserves(ps[i], qs[i])
    ensures forall s :: Count(done, s, HandoffResume) <= RESUME_ATTEMPTS * multiset(Names(ps))[s]
    ensures forall s :: AllDurable(w, h, bin, ps, s) ==> Undisturbed(done, s)
    ensures forall i :: 0 <= i < |ps| && AllDurable(w, h, bin, ps, ps[i].sessionName) ==> qs[i].alreadyResumed
    ensures Distinct(ps) ==> forall i :: 0 <= i < |ps| && Fresh(qs[i]) ==> ResumedAndLeftAlone(done, bin, ps[i])
    ensures forall e :: e in done ==> e.session in Names(ps)
  {
    hide Restored;
  }

  /** The resume budget: three commands per entry of that name. */
  lemma BudgetStep(ps: seq<PreparedHandoff>, i: nat, done: History, step: History, s: string)
    requires i < |ps| && For(step, ps[i].sessionName)
    requires Count(done, s, HandoffResume) <= RESUME_ATTEMPTS * multiset(Names(ps[..i]))[s]
    requires Count(step, ps[i].sessionName, HandoffResume) <= RESUME_ATTEMPTS
    ensures Count(done + step, s, HandoffResume) <= RESUME_ATTEMPTS * multiset(Names(ps[..i+1]))[s]
  {
    CountAppend(done, step, s, HandoffResume);
    if s != ps[i].sessionName {
      CountZero(step, s, HandoffResume);
    }
    assert Names(ps[..i+1]) == Names(ps[..i]) + [ps[i].sessionName];
  }

  lemma BudgetGrows(ps: seq<PreparedHandoff>, i: nat, s: string)
    requires i <= |ps|
    ensures multiset(Names(ps[..i]))[s] <= multiset(Names(ps))[s]
  {
    assert Names(ps) == Names(ps[..i]) + Names(ps[i..]);
  }

  /** Sessions that were durable at the start are not disturbed by this entry either. */
  lemma DurableStep(w: World, h: History, bin: string, ps: seq<PreparedHandoff>, i: nat, done: History, step: History,
                    r: Result<ResumedHandoff, HandoffError>, s: string)
    requires i < |ps| && For(step, ps[i].sessionName)
    requires AllDurable(w, h, bin, ps[..i], s) ==> Undisturbed(done, s)
    requires Durable(w, h + done, bin, ps[i]) ==> Untouched(ps[i].sessionName, step, r)
    requires AllDurable(w, h, bin, ps[..i+1], s)
    ensures AllDurable(w, h, bin, ps[..i], s)
    ensures Undisturbed(done + step, s)
    ensures s == ps[i].sessionName && r.Ok? ==> r.value.alreadyResumed
  {
    hide Durable;
    assert forall p :: p in ps[..i] ==> p in ps[..i+1];
    if s == ps[i].sessionName {
      assert ps[i] == ps[..i+1][i] && ps[i] in ps[..i+1];
      DurableLater(w, h, done, bin, ps[i]);
    }
  }

  lemma LeftAloneGrows(done: History, step: History, bin: string, p: PreparedHandoff)
    requires ResumedAndLeftAlone(done, bin, p) && Undisturbed(step, p.sessionName)
    ensures ResumedAndLeftAlone(done + step, bin, p)
  {
    var k :| 0 <= k < |done| && Ran(done[k], p.sessionName, HandoffResume) && Accepted(done[k].act.reply)
      && done[k].act.bin == bin && done[k].act.env == p.displayEnvironment && Undisturbed(done[k+1..], p.sessionName);
    var all := done + step;
    assert all[k] == done[k] && all[k+1..] == done[k+1..] + step;
  }

  lemma LeftAloneStep(bin: string, ps: seq<PreparedHandoff>, i: nat, done: History, qs: seq<ResumedHandoff>, step: History, q: ResumedHandoff, j: nat)
    requires i < |ps| && |qs| == i && For(step, ps[i].sessionName) && Distinct(ps[..i+1])
    requires forall j :: 0 <= j < i && Fresh(qs[j]) ==> ResumedAndLeftAlone(done, bin, ps[j])
    requires Supported(step, bin, ps[i], q)
    requires j <= i && Fresh((qs + [q])[j])
    ensures ResumedAndLeftAlone(done + step, bin, ps[j])
  {
    hide ResumedAndLeftAlone, Supported;
    if j == i {
      FreshIsBacked(step, bin, ps[i], q);
      ResumeStaysRecorded(done, step, bin, ps[i]);
    } else {
      assert ps[..i+1][j] == ps[j] && ps[..i+1][i] == ps[i];
      LeftAloneGrows(done, step, bin, ps[j]);
    }
  }

  lemma ResumeStaysRecorded(head: History, tail: History, bin: string, p: PreparedHandoff)
    requires ResumedAndLeftAlone(tail, bin, p)
    ensures ResumedAndLeftAlone(head + tail, bin, p)
  {
    hide Undisturbed, Accepted;
    var all := head + tail;
    var k :| 0 <= k < |tail| && Ran(tail[k], p.sessionName, HandoffResume) && Accepted(tail[k].act.reply)
      && tail[k].act.bin == bin && tail[k].act.env == p.displayEnvironment && Undisturbed(tail[k+1..], p.sessionName);
    assert all[|head|+k] == tail[k] && all[|head|+k+1..] == tail[k+1..];
  }

  lemma PassedStep(w: World, h: History, bin: string, ps: seq<PreparedHandoff>, i: nat, done: History, qs: seq<ResumedHandoff>,
                   step: History, q: ResumedHandoff)
    requires i < |ps| && Passed(w, h, bin, ps[..i], done, qs)
    requires For(step, ps[i].sessionName) && Conserves(ps[i], q) && Supported(step, bin, ps[i], q)
    requires Count(step, ps[i].sessionName, HandoffResume) <= RESUME_ATTEMPTS
    requires Durable(w, h + done, bin, ps[i]) ==> Untouched(ps[i].sessionName, step, Ok(q))
    ensures Passed(w, h, bin, ps[..i+1], done + step, qs + [q])
  {
    hide Supported, Conserves, Count, Durable, AllDurable, Undisturbed, Untouched, ResumedAndLeftAlone, Restored;
    forall s ensures Count(done + step, s, HandoffResume) <= RESUME_ATTEMPTS * multiset(Names(ps[..i+1]))[s] {
      BudgetStep(ps, i, done, step, s);
    }
    forall s | AllDurable(w, h, bin, ps[..i+1], s) ensures Undisturbed(done + step, s) {
      DurableStep(w, h, bin, ps, i, done, step, Ok(q), s);
    }
    if Distinct(ps[..i+1]) {
      assert Distinct(ps[..i]) by {
        forall a, b | 0 <= a < b < i ensures ps[..i][a].sessionName != ps[..i][b].sessionName {
          assert ps[..i+1][a] == ps[a] && ps[..i+1][b] == ps[b];
        }
      }
      forall j | 0 <= j < i + 1 && Fresh((qs + [q])[j]) ensures ResumedAndLeftAlone(done + step, bin, ps[..i+1][j]) {
        LeftAloneStep(bin, ps, i, done, qs, step, q, j);
      }
    }
    forall j | 0 <= j < i + 1 && AllDurable(w, h, bin, ps[..i+1], ps[..i+1][j].sessionName) ensures (qs + [q])[j].alreadyResumed {
      DurableStep(w, h, bin, ps, i, done, step, Ok(q), ps[..i+1][j].sessionName);
      assert j < i ==> ps[..i][j] == ps[j];
    }
    forall j | 0 <= j < i + 1 ensures Conserves(ps[..i+1][j], (qs + [q])[j]) {
      assert j < i ==> ps[..i][j] == ps[j] && Conserves(ps[..i][j], qs[j]);
    }
    assert ps[..i+1] == ps[..i] + [ps[i]];
    RestoredStep(ps[..i], done, bin, qs, ps[i], step, q);
    SessionsStep(ps, i, done, step);
  }

  lemma SessionsStep(ps: seq<PreparedHandoff>, i: nat, done: History, step: History)
    requires i < |ps| && For(step, ps[i].sessionName) && forall e :: e in done ==> e.session in Names(ps[..i])
    ensures forall e :: e in done + step ==> e.session in Names(ps[..i+1])
  {
    assert Names(ps[..i+1]) == Names(ps[..i]) + [ps[i].sessionName];
  }

  /** What is known when the resume loop stops at entry `i`. */
  lemma RefusedStep(w: World, h: History, bin: string, ps: seq<PreparedHandoff>, i: nat, done: History, qs: seq<ResumedHandoff>,
                    step: History, r: Result<ResumedHandoff, HandoffError>)
    requires i < |ps| && Passed(w, h, bin, ps[..i], done, qs)
    requires r.Err? && RefusedBy(step, ps[i], r.error)
    requires Count(step, ps[i].sessionName, HandoffResume) <= RESUME_ATTEMPTS
    requires Durable(w, h + done, bin, ps[i]) ==> Untouched(ps[i].sessionName, step, r)
    ensures |qs| == i && RefusedAt(ps, done + step, bin, qs, r.error)
    ensures forall j :: 0 <= j < i ==> Conserves(ps[j], qs[j])
    ensures forall e :: e in done + step ==> e.session in Names(ps[..i+1])
    ensures forall s :: Count(done + step, s, HandoffResume) <= RESUME_ATTEMPTS * multiset(Names(ps))[s]
    ensures forall s :: AllDurable(w, h, bin, ps, s) ==> Undisturbed(done + step, s)
    ensures forall j :: 0 <= j < i && AllDurable(w, h, bin, ps, ps[j].sessionName) ==> qs[j].alreadyResumed
    ensures Distinct(ps) ==> forall j :: 0 <= j < i && Fresh(qs[j]) ==> ResumedAndLeftAlone(done + step, bin, ps[j])
  {
    hide Conserves, Count, Durable, Undisturbed, Untouched, ResumedAndLeftAlone, RefusedBy, Restored;
    RefusedSessions(step, ps[i], r.error);
    SessionsStep(ps, i, done, step);
    assert (done + step)[..|done|] == done && (done + step)[|done|..] == step;
    forall s ensures Count(done + step, s, HandoffResume) <= RESUME_ATTEMPTS * multiset(Names(ps))[s] {
      BudgetStep(ps, i, done, step, s);
      BudgetGrows(ps, i + 1, s);
    }
    RefusedDurable(w, h, bin, ps, i, done, qs, step, r);
    forall j | 0 <= j < i ensures Conserves(ps[j], qs[j]) {
      assert ps[..i][j] == ps[j] && Conserves(ps[..i][j], qs[j]);
    }
    if Distinct(ps) {
      forall j | 0 <= j < i && Fresh(qs[j]) ensures ResumedAndLeftAlone(done + step, bin, ps[j]) {
        assert ps[..i][j] == ps[j] && ps[j].sessionName != ps[i].sessionName;
        OthersUndisturbed(step, ps[i].sessionName, ps[j].sessionName);
        LeftAloneGrows(done, step, bin, ps[j]);
      }
    }
  }

  lemma RefusedSessions(step: History, p: PreparedHandoff, err: HandoffError)
    requires RefusedBy(step, p, err)
    ensures For(step, p.sessionName)
  {}

  lemma RefusedDurable(w: World, h: History, bin: string, ps: seq<PreparedHandoff>, i: nat, done: History, qs: seq<ResumedHandoff>,
                       step: History, r: Result<ResumedHandoff, HandoffError>)
    requires i < |ps| && |qs| == i && For(step, ps[i].sessionName)
    requires forall s :: AllDurable(w, h, bin, ps[..i], s) ==> Undisturbed(done, s)
    requires forall j :: 0 <= j < i && AllDurable(w, h, bin, ps[..i], ps[..i][j].sessionName) ==> qs[j].alreadyResumed
    requires Durable(w, h + done, bin, ps[i]) ==> Untouched(ps[i].sessionName, step, r)
    ensures forall s :: AllDurable(w, h, bin, ps, s) ==> Undisturbed(done + step, s)
    ensures forall j :: 0 <= j < i && AllDurable(w, h, bin, ps, ps[j].sessionName) ==> qs[j].alreadyResumed
  {
    hide Durable, Undisturbed, Untouched;
    assert forall p :: p in ps[..i+1] ==> p in ps;
    forall s | AllDurable(w, h, bin, ps, s) ensures Undisturbed(done + step, s) {
      DurableStep(w, h, bin, ps, i, done, step, r, s);
    }
    forall j | 0 <= j < i && AllDurable(w, h, bin, ps, ps[j].sessionName) ensures qs[j].alreadyResumed {
      DurableStep(w, h, bin, ps, i, done, step, r, ps[j].sessionName);
      assert ps[..i][j] == ps[j];
    }
  }

  lemma OthersUndisturbed(step: History, session: string, other: string)
    requires For(step, session) && session != other
    ensures Undisturbed(step, other)
  {}

  lemma {:induction false} StaysTakenBack(h: History, tail: History, session: string)
    requires session !in Relinquished(h) && Undisturbed(tail, session)
    ensures session !in Relinquished(h + tail)
    decreases |tail|
  {
    hide Relinquished, Accepted;
    if tail == [] {
      assert h + tail == h;
    } else {
      var prior, e := tail[..|tail|-1], tail[|tail|-1];
      assert tail == prior + [e] && e in tail && forall x :: x in prior ==> x in tail;
      StaysTakenBack(h, prior, session);
      assert h + tail == (h + prior) + [e];
      RelinquishedStep(h + prior, e);
    }
  }

  /** A fresh resume really takes the browser back. */
  lemma ResumeTakesBack(h: History, done: History, bin: string, p: PreparedHandoff)
    requires ResumedAndLeftAlone(done, bin, p)
    ensures p.sessionName !in Relinquished(h + done)
  {
    hide Undisturbed, Relinquished, Accepted;
    var k :| 0 <= k < |done| && Ran(done[k], p.sessionName, HandoffResume) && Accepted(done[k].act.reply)
      && done[k].act.bin == bin && done[k].act.env == p.displayEnvironment && Undisturbed(done[k+1..], p.sessionName);
    var upTo := h + done[..k];
    RelinquishedStep(upTo, done[k]);
    StaysTakenBack(upTo + [done[k]], done[k+1..], p.sessionName);
    assert h + done == upTo + [done[k]] + done[k+1..];
  }

  /** In a world where a resume leaves a live daemon with its browser, a freshly
      resumed session is durable from then on. */
  lemma FreshIsDurable(w: World, h: History, done: History, bin: string, p: PreparedHandoff)
    requires ResumeRestores(w, bin, p) && ResumedAndLeftAlone(done, bin, p)
    ensures Durable(w, h + done, bin, p)
  {
    hide Durable;
    var k :| 0 <= k < |done| && Ran(done[k], p.sessionName, HandoffResume) && Accepted(done[k].act.reply)
      && done[k].act.bin == bin && done[k].act.env == p.displayEnvironment && Undisturbed(done[k+1..], p.sessionName);
    var upTo := h + done[..k];
    assert done[k] == Event(p.sessionName, Run(bin, HandoffResume, p.displayEnvironment, done[k].act.reply));
    assert Durable(w, upTo + [done[k]], bin, p);
    DurableLater(w, upTo + [done[k]], done[k+1..], bin, p);
    assert h + done == upTo + [done[k]] + done[k+1..];
  }

  /** The entry's session keeps its browser after the pass: it was durable before, or it
      was freshly resumed where that makes it so. */
  ghost predicate Steady(w: World, h: History, bin: string, p: PreparedHandoff, q: ResumedHandoff) {
    Durable(w, h, bin, p) || (Fresh(q) && ResumeRestores(w, bin, p))
  }

  lemma OnlyOneOfThatName(w: World, h: History, bin: string, ps: seq<PreparedHandoff>, i: nat)
    requires i < |ps| && Distinct(ps) && Durable(w, h, bin, ps[i])
    ensures AllDurable(w, h, bin, ps, ps[i].sessionName)
  {
    hide Durable;
  }

  lemma NoResumeWhenUndisturbed(done: History, session: string)
    requires Undisturbed(done, session)
    ensures Count(done, session, HandoffResume) == 0
  {
    CountZero(done, session, HandoffResume);
  }

}
