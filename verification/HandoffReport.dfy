/** The reports of a browser-preserving handoff, and the observations that justify
    each of its errors (scripts/publish-local-dashboard-runtime.js). */
module HandoffReport {
  import opened JsValues
  import opened HandoffIdentity
  import opened HandoffWorld

  const EXIT_TIMEOUT_MS: nat := 5000
  const RETIRE_TIMEOUT_MS: nat := 1500
  const POLL_MS: nat := 50
  const RESUME_ATTEMPTS: nat := 3
  const RESUME_BACKOFF_MS: nat := 250

  datatype HandoffError =
    | InventoryChanged
    | DisplayUnreadable(session: string)
    | SessionReacquired(session: string, pid: int)
    | ExitTimeout(session: string)
    | NoRetirementBoundary(session: string)
    | DescriptorMismatch(session: string)
    | SignalFailed(session: string)
    | RemainedLive(session: string)
    | BrowserLost(session: string)
    | OwnershipUnproven(session: string)
    | IdleNotRetired(session: string)
    | UnsupportedActive(session: string)
    | LacksDisplayCustody(session: string)
    | RecordInvalid(session: string)
    | RecordChanged(session: string)
    | FoundDifferentPid(session: string)
    | FoundDifferentEndpoint(session: string)
    | ResumeFailed(session: string)
    | ChangedPid(session: string)
    | ChangedEndpoint(session: string)
    | InvalidSessionName(session: string)
    | RecordIdentityMismatch(session: string)
    | ConflictingEvidence(session: string)

  datatype RetiredSession = RetiredSession(sessionName: string, daemonPid: Js<int>, compatibilityClose: bool, alreadyExited: bool)

  datatype UnsupportedSession = UnsupportedSession(sessionName: string, daemonPid: Js<int>, browserPid: Js<int>, cdpUrl: Js<string>, error: string)

  datatype RollbackResult = RollbackResult(sessionName: string, success: bool, error: Js<string>)

  datatype ResumedHandoff = ResumedHandoff(
    sessionName: string,
    browserPid: Js<int>,
    attachedBrowserPid: Js<int>,
    staleBrowserPidDropped: bool,
    staleAttachedEndpointDropped: bool,
    cdpUrl: Js<string>,
    runtimeProfile: Js<string>,
    targetsReattached: Js<int>,
    retryRecordRemoved: bool,
    daemonPid: Js<int>,
    alreadyResumed: bool)

  datatype Readback = Readback(success: bool, browser: Option<BrowserRecord>, error: string)

  function ReadbackOf(reply: Reply, session: string, expected: Option<PreparedHandoff>): Readback {
    var selection := Select(reply.browsers, session, expected);
    Readback(
      Accepted(reply) && !selection.Rejected?,
      if selection.Found? then Some(selection.browser) else None,
      if selection.Rejected? then selection.error else reply.error)
  }

  predicate WordChar(c: char) {
    'a' <= c <= 'z' || 'A' <= c <= 'Z' || '0' <= c <= '9' || c == '_'
  }

  predicate EnoentAt(text: string, i: nat) {
    && i + 6 <= |text| && text[i..i+6] == "ENOENT"
    && (i == 0 || !WordChar(text[i-1]))
    && (i + 6 == |text| || !WordChar(text[i+6]))
  }

  /** /\bENOENT\b/ */
  predicate MentionsEnoent(text: string) {
    exists i :: 0 <= i < |text| && EnoentAt(text, i)
  }

  /** Whether a service browser counts as active before any handoff exists. */
  predicate AppearsActive(browser: Option<BrowserRecord>, processLive: bool) {
    && browser.Some?
    && (processLive || (Truthy(browser.value.cdpEndpoint) && !Closed(browser.value.health)))
  }

  /** The identity a record file claims, in either spelling. */
  datatype RecordIdentity = RecordIdentity(
    schemaVersion: Js<int>, sessionName: Js<string>, browserPid: Js<int>, cdpUrl: Js<string>, runtimeProfile: Js<string>)

  function IdentityOf(f: RecordFields): RecordIdentity {
    RecordIdentity(
      OrElse(f.schemaVersion, f.schema_version),
      OrElse(f.sessionName, f.session_name),
      OrNull(OrElse(f.browserPid, f.browser_pid)),
      OrNull(OrElse(f.cdpUrl, f.cdp_url)),
      OrNull(OrElse(f.runtimeProfile, f.runtime_profile)))
  }

  predicate SupportedSchema(v: Js<int>) {
    v == Value(1) || v == Value(2)
  }

  predicate SameRecord(id: RecordIdentity, p: PreparedHandoff) {
    && SupportedSchema(id.schemaVersion)
    && id.sessionName == Value(p.sessionName)
    && id.browserPid == OrNull(p.browserPid)
    && id.cdpUrl == OrNull(p.cdpUrl)
    && (p.runtimeProfile.Value? ==> id.runtimeProfile == p.runtimeProfile)
  }

  /** The fields retirePreparedDaemon compares: camelCase spelling only. */
  predicate DescribesPrepared(f: RecordFields, p: PreparedHandoff) {
    && SupportedSchema(f.schemaVersion)
    && f.sessionName == Value(p.sessionName)
    && f.cdpUrl == p.cdpUrl
    && OrNull(f.browserPid) == p.browserPid
  }

  predicate Positive(pid: Js<int>) {
    pid.Value? && pid.v > 0
  }

  predicate NameStart(c: char) {
    'A' <= c <= 'Z' || 'a' <= c <= 'z' || '0' <= c <= '9'
  }

  /** /^[A-Za-z0-9][A-Za-z0-9._-]*$/ */
  predicate ValidSessionName(name: string) {
    && name != "" && NameStart(name[0])
    && forall c :: c in name ==> NameStart(c) || c == '.' || c == '_' || c == '-'
  }

  /** An attached external browser may only be resumed on its own display. */
  predicate LacksCustody(p: PreparedHandoff) {
    p.host == Value("attached_existing") && p.browserPid.Value? && p.displayEnvironment.Undefined?
  }

  predicate StaleAttachedPidDropped(p: PreparedHandoff, data: ReplyData) {
    && p.host == Value("attached_existing")
    && !data.browserPid.Value?
    && data.preparedBrowserPid == p.browserPid
    && data.staleBrowserPidDropped
  }

  /** The two ways in which an accepted resume reply may still be refused. */
  predicate PidChanged(p: PreparedHandoff, data: ReplyData) {
    p.browserPid != Null && data.browserPid != p.browserPid && !StaleAttachedPidDropped(p, data)
  }

  predicate EndpointChanged(p: PreparedHandoff, data: ReplyData) {
    Truthy(p.cdpUrl) && data.cdpUrl != p.cdpUrl
  }

  function Names(ps: seq<PreparedHandoff>): (r: seq<string>)
    ensures |r| == |ps| && forall i :: 0 <= i < |ps| ==> r[i] == ps[i].sessionName
  {
    seq(|ps|, i requires 0 <= i < |ps| => ps[i].sessionName)
  }

  ghost predicate Distinct(ps: seq<PreparedHandoff>) {
    forall i, j :: 0 <= i < j < |ps| ==> ps[i].sessionName != ps[j].sessionName
  }

  // What a history shows

  /** The history ends with this act. */
  ghost predicate Last(done: History, session: string, act: Act) {
    |done| > 0 && done[|done|-1] == Event(session, act)
  }

  /** Looking and sleeping, nothing else. */
  ghost predicate OnlyWaits(done: History) {
    forall e :: e in done ==> e.act.ReadPidFile? || e.act.Probe? || e.act.ProbeRaw? || e.act.Sleep?
  }

  /** One look of an exit wait that found no new owner: the PID file, the process it
      names if that is another one (dead), and the prior process. */
  ghost predicate Looked(poll: History, session: string, prior: Js<int>, live: bool) {
    && |poll| > 0 && poll[0].session == session && poll[0].act.ReadPidFile? && (live ==> Positive(prior))
    && var owner := poll[0].act.pid;
       poll == [poll[0]]
         + (if Positive(owner) && owner != prior then [Event(session, Probe(owner.v, false))] else [])
         + (if Positive(prior) then [Event(session, Probe(prior.v, live))] else [])
  }

  /** Looks that found the prior process live, each followed by a pause. */
  ghost predicate Waiting(done: History, session: string, prior: Js<int>)
    decreases |done|
  {
    done == [] || exists n: nat ::
      && n + 1 < |done| && Waiting(done[..n], session, prior)
      && Looked(done[n..|done|-1], session, prior, true) && done[|done|-1] == Event(session, Sleep(POLL_MS))
  }

  /** A wait without a new owner, whose last look found the prior process gone, or not. */
  ghost predicate Waited(done: History, session: string, prior: Js<int>, gone: bool) {
    exists n: nat :: n <= |done| && Waiting(done[..n], session, prior) && Looked(done[n..], session, prior, !gone)
  }

  ghost predicate TimedOut(w: World, h: History, done: History, session: string, prior: Js<int>) {
    Waited(done, session, prior, false) && Duration(w, h, done) >= EXIT_TIMEOUT_MS
  }

  /** A wait that stopped at a live new owner. */
  ghost predicate Reacquired(done: History, session: string, prior: Js<int>, owner: int) {
    && |done| > 1 && Waiting(done[..|done|-2], session, prior) && Value(owner) != prior
    && done[|done|-2] == Event(session, ReadPidFile(Value(owner))) && done[|done|-1] == Event(session, Probe(owner, true))
  }

  /** The two ways an exit wait fails. */
  ghost predicate WaitFailed(w: World, h: History, done: History, session: string, prior: Js<int>, err: HandoffError) {
    || (err == ExitTimeout(session) && TimedOut(w, h, done, session, prior))
    || (err.SessionReacquired? && err.session == session && Reacquired(done, session, prior, err.pid))
  }

  lemma NothingWaited(session: string, prior: Js<int>)
    ensures Waiting([], session, prior)
  {}

  lemma LookComplete(session: string, prior: Js<int>, current: Js<int>, owner: History, probed: History, live: bool)
    requires owner == if Positive(current) && current != prior then [Event(session, Probe(current.v, false))] else []
    requires probed == if Positive(prior) then [Event(session, Probe(prior.v, live))] else []
    requires live ==> Positive(prior)
    ensures Looked([Event(session, ReadPidFile(current))] + owner + probed, session, prior, live)
  {}

  lemma LooksAgain(done: History, poll: History, session: string, prior: Js<int>)
    requires Waiting(done, session, prior) && Looked(poll, session, prior, true)
    ensures Waiting(done + poll + [Event(session, Sleep(POLL_MS))], session, prior)
  {
    hide Looked;
    LookNotEmpty(poll, session, prior, true);
    var all, n := done + poll + [Event(session, Sleep(POLL_MS))], |done|;
    assert all[..n] == done && all[n..|all|-1] == poll;
  }

  lemma LookNotEmpty(poll: History, session: string, prior: Js<int>, live: bool)
    requires Looked(poll, session, prior, live)
    ensures poll != [] && (Positive(prior) ==> Last(poll, session, Probe(prior.v, live)))
    ensures For(poll, session) && OnlyWaits(poll)
  {}

  lemma LooksLast(done: History, poll: History, session: string, prior: Js<int>, gone: bool)
    requires Waiting(done, session, prior) && Looked(poll, session, prior, !gone)
    ensures Waited(done + poll, session, prior, gone)
  {
    hide Looked, Waiting;
    assert (done + poll)[..|done|] == done && (done + poll)[|done|..] == poll;
  }

  lemma FindsOwner(done: History, poll: History, session: string, prior: Js<int>, owner: int)
    requires Waiting(done, session, prior) && Value(owner) != prior
    requires poll == [Event(session, ReadPidFile(Value(owner))), Event(session, Probe(owner, true))]
    ensures Reacquired(done + poll, session, prior, owner)
  {
    hide Waiting;
    assert (done + poll)[..|done + poll|-2] == done;
  }

  lemma {:induction false} WaitingActs(done: History, session: string, prior: Js<int>)
    requires Waiting(done, session, prior)
    ensures For(done, session) && OnlyWaits(done)
    decreases |done|
  {
    hide Looked;
    if done != [] {
      var n: nat :|
        && n + 1 < |done| && Waiting(done[..n], session, prior)
        && Looked(done[n..|done|-1], session, prior, true) && done[|done|-1] == Event(session, Sleep(POLL_MS));
      WaitingActs(done[..n], session, prior);
      LookNotEmpty(done[n..|done|-1], session, prior, true);
      assert done == done[..n] + done[n..|done|-1] + [done[|done|-1]];
    }
  }

  /** What a wait ends with. */
  lemma WaitedEnds(done: History, session: string, prior: Js<int>, gone: bool)
    requires Waited(done, session, prior, gone)
    ensures done != [] && For(done, session) && OnlyWaits(done)
    ensures Positive(prior) ==> Last(done, session, Probe(prior.v, !gone))
  {
    hide Looked, Waiting;
    var n: nat :| n <= |done| && Waiting(done[..n], session, prior) && Looked(done[n..], session, prior, !gone);
    LookNotEmpty(done[n..], session, prior, !gone);
    WaitingActs(done[..n], session, prior);
    assert done == done[..n] + done[n..];
  }

  lemma LooksLastEnds(before: History, poll: History, session: string, prior: Js<int>, gone: bool)
    requires Waiting(before, session, prior) && Looked(poll, session, prior, !gone)
    ensures var done := before + poll;
            && Waited(done, session, prior, gone) && For(done, session) && OnlyWaits(done)
            && (Positive(prior) ==> Last(done, session, Probe(prior.v, !gone))) && (!gone ==> Positive(prior))
  {
    hide Waiting;
    LooksLast(before, poll, session, prior, gone);
    WaitedEnds(before + poll, session, prior, gone);
  }

  /** Neither a command nor a signal: at most files are read or removed. */
  ghost predicate HandsOff(done: History) {
    forall e :: e in done ==> !e.act.Run? && !e.act.SendSignal?
  }

  /** The service readback at `k` is the session's last one and succeeded. */
  ghost predicate ReadbackAt(done: History, session: string, k: nat) {
    && k < |done| && Ran(done[k], session, ServiceBrowsers)
    && ReadbackOf(done[k].act.reply, session, None).success
    && forall j :: k < j < |done| ==> !Ran(done[j], session, ServiceBrowsers)
  }

  /** The browser that the readback at `k` names, and the process probe that follows. */
  ghost predicate ActiveAt(done: History, session: string, k: nat, b: BrowserRecord) {
    && ReadbackAt(done, session, k)
    && ReadbackOf(done[k].act.reply, session, None).browser == Some(b)
    && (|| AppearsActive(Some(b), false)
        || (Positive(b.pid) && k + 1 < |done| && done[k+1] == Event(session, Probe(b.pid.v, true))))
  }

  ghost predicate IdleAt(done: History, session: string, k: nat) {
    && ReadbackAt(done, session, k)
    && var browser := ReadbackOf(done[k].act.reply, session, None).browser;
       && !AppearsActive(browser, false)
       && (browser.Some? && Positive(browser.value.pid) ==>
             k + 1 < |done| && done[k+1] == Event(session, Probe(browser.value.pid.v, false)))
  }

  /** By the last readback the session drives the active browser `b`. */
  ghost predicate SeenActive(done: History, session: string, b: BrowserRecord) {
    exists k: nat :: ActiveAt(done, session, k, b)
  }

  /** By the last readback the session drives no active browser. */
  ghost predicate SeenIdle(done: History, session: string) {
    exists k: nat :: IdleAt(done, session, k)
  }

  lemma OneLastReadback(done: History, session: string, k: nat, j: nat)
    requires ReadbackAt(done, session, k) && ReadbackAt(done, session, j)
    ensures k == j
  {}

  /** One last readback cannot show both. */
  lemma IdleIsNotActive(done: History, session: string, b: BrowserRecord)
    requires SeenIdle(done, session)
    ensures !SeenActive(done, session, b)
  {
    var k: nat :| IdleAt(done, session, k);
    forall j: nat | ActiveAt(done, session, j, b) ensures false {
      OneLastReadback(done, session, k, j);
    }
  }

  /** No command closes a session unless its last readback before showed it idle. */
  ghost predicate ClosesOnlyIdle(done: History) {
    forall k :: 0 <= k < |done| && Ran(done[k], done[k].session, Close) ==> SeenIdle(done[..k], done[k].session)
  }

  lemma SeenIdleLater(head: History, tail: History, session: string)
    requires SeenIdle(tail, session)
    ensures SeenIdle(head + tail, session)
  {
    hide ReadbackOf, AppearsActive;
    var k: nat :| IdleAt(tail, session, k);
    var all := head + tail;
    assert forall j :: |head| <= j < |all| ==> all[j] == tail[j-|head|];
    assert IdleAt(all, session, |head| + k);
  }

  lemma SeenActiveLater(head: History, tail: History, session: string, b: BrowserRecord)
    requires SeenActive(tail, session, b)
    ensures SeenActive(head + tail, session, b)
  {
    hide ReadbackOf, AppearsActive;
    var k: nat :| ActiveAt(tail, session, k, b);
    var all := head + tail;
    assert forall j :: |head| <= j < |all| ==> all[j] == tail[j-|head|];
    assert ActiveAt(all, session, |head| + k, b);
  }

  lemma ClosesConcat(a: History, b: History)
    requires ClosesOnlyIdle(a) && ClosesOnlyIdle(b)
    ensures ClosesOnlyIdle(a + b)
  {
    hide SeenIdle;
    var all := a + b;
    forall k | 0 <= k < |all| && Ran(all[k], all[k].session, Close) ensures SeenIdle(all[..k], all[k].session) {
      if k < |a| {
        assert all[..k] == a[..k];
      } else {
        var i := k - |a|;
        assert all[k] == b[i] && all[..k] == a + b[..i];
        SeenIdleLater(a, b[..i], b[i].session);
      }
    }
  }

  lemma NothingCloses(done: History)
    requires forall e :: e in done && e.act.Run? ==> !e.act.command.Close?
    ensures ClosesOnlyIdle(done)
  {}

  /** What the act on which the code gave up must be; `about` is the prepared
      handoff in question, where there is one. */
  predicate Shows(act: Act, err: HandoffError, about: Option<PreparedHandoff>) {
    match err
    case DisplayUnreadable(_) => act == ReadPidFile(Null) || (act.CaptureDisplay? && act.captured.None?)
    case ExitTimeout(_) => act.Probe? && act.live
    case SignalFailed(_) => act.SendSignal? && !act.delivered
    case OwnershipUnproven(s) => act.Run? && act.command.ServiceBrowsers? && !ReadbackOf(act.reply, s, None).success
    case ResumeFailed(_) => act.Run? && act.command.HandoffResume? && !Accepted(act.reply)
    case _ => about.Some? && ShowsAbout(act, err, about.value)
  }

  predicate ShowsAbout(act: Act, err: HandoffError, p: PreparedHandoff) {
    match err
    case NoRetirementBoundary(_) => Truthy(p.handoffPath) && act == ReadRecord(p.handoffPath.v, Missing)
    case DescriptorMismatch(_) =>
      || (&& Truthy(p.handoffPath) && act.ReadRecord? && act.path == p.handoffPath.v && act.file.Parsed?
          && (!DescribesPrepared(act.file.fields, p) || (p.browserPid.Value? && p.browserPid.v <= 0)))
      || (p.browserPid.Value? && act == ProbeRaw(p.browserPid.v, false))
    case RemainedLive(_) => p.daemonPid.Value? && act == ProbeRaw(p.daemonPid.v, true)
    case BrowserLost(_) => p.browserPid.Value? && act == ProbeRaw(p.browserPid.v, false)
    case RecordInvalid(_) => Truthy(p.handoffPath) && act == ReadRecord(p.handoffPath.v, Unparsable)
    case RecordChanged(_) =>
      && Truthy(p.handoffPath) && act.ReadRecord? && act.path == p.handoffPath.v && act.file.Parsed?
      && !SameRecord(IdentityOf(act.file.fields), p)
    case FoundDifferentPid(s) =>
      && act.Run? && act.command.ServiceBrowsers? && p.browserPid.Value?
      && var readback := ReadbackOf(act.reply, s, Some(p));
         readback.success && readback.browser.Some? && readback.browser.value.pid.Undefined?
    case ChangedPid(_) => act.Run? && act.command.HandoffResume? && Accepted(act.reply) && PidChanged(p, act.reply.data)
    case ChangedEndpoint(_) => act.Run? && act.command.HandoffResume? && Accepted(act.reply) && EndpointChanged(p, act.reply.data)
    case _ => false
  }

  /** Every error names the session at hand and is backed by what was observed last,
      or is decided by the prepared handoff alone. */
  ghost predicate Evidence(err: HandoffError, session: string, about: Option<PreparedHandoff>, done: History) {
    && !err.InventoryChanged? && err.session == session
    && if err.LacksDisplayCustody? then about.Some? && LacksCustody(about.value)
       else if err.UnsupportedActive? then exists b :: SeenActive(done, session, b)
       else if err.SessionReacquired? then
         |done| > 1 && done[|done|-2] == Event(session, ReadPidFile(Value(err.pid))) && Last(done, session, Probe(err.pid, true))
       else if err.IdleNotRetired? then
         && |done| > 1 && Ran(done[|done|-2], session, Close) && !Accepted(done[|done|-2].act.reply)
         && done[|done|-1].session == session && done[|done|-1].act.Probe? && done[|done|-1].act.live
       else
         || (err.NoRetirementBoundary? && about.Some? && !Truthy(about.value.handoffPath))
         || (|done| > 0 && done[|done|-1].session == session && Shows(done[|done|-1].act, err, about))
  }

  /** Errors that do not depend on a prepared handoff. */
  predicate Plain(err: HandoffError) {
    || err.DisplayUnreadable? || err.SessionReacquired? || err.ExitTimeout? || err.SignalFailed?
    || err.OwnershipUnproven? || err.IdleNotRetired? || err.UnsupportedActive? || err.ResumeFailed?
  }

  lemma EvidenceGrows(err: HandoffError, session: string, about: Option<PreparedHandoff>, head: History, tail: History)
    requires Evidence(err, session, about, tail)
    ensures Evidence(err, session, about, head + tail)
  {
    hide Shows, SeenActive, LacksCustody;
    if err.UnsupportedActive? {
      var b :| SeenActive(tail, session, b);
      SeenActiveLater(head, tail, session, b);
    } else if |tail| > 0 {
      var all := head + tail;
      assert all[|all|-1] == tail[|tail|-1];
      assert |tail| > 1 ==> all[|all|-2] == tail[|tail|-2];
    }
  }

  lemma PlainEvidence(err: HandoffError, session: string, about: Option<PreparedHandoff>, done: History)
    requires Plain(err) && Evidence(err, session, None, done)
    ensures Evidence(err, session, about, done)
  {
    hide SeenActive, ReadbackOf, Accepted;
  }

  lemma EvidenceAt(err: HandoffError, session: string, about: Option<PreparedHandoff>, done: History)
    requires |done| > 0 && done[|done|-1].session == session && Shows(done[|done|-1].act, err, about)
    requires !err.InventoryChanged? && err.session == session
    requires !err.LacksDisplayCustody? && !err.UnsupportedActive? && !err.SessionReacquired? && !err.IdleNotRetired?
    ensures Evidence(err, session, about, done)
  {}

  lemma LiveIsTimeout(done: History, session: string, prior: Js<int>)
    requires Positive(prior) && Last(done, session, Probe(prior.v, true))
    ensures Evidence(ExitTimeout(session), session, None, done)
  {}

  lemma ReacquiredActs(before: History, poll: History, session: string, prior: Js<int>, owner: int)
    requires Waiting(before, session, prior)
    requires poll == [Event(session, ReadPidFile(Value(owner))), Event(session, Probe(owner, true))]
    ensures For(before + poll, session) && OnlyWaits(before + poll)
    ensures Evidence(SessionReacquired(session, owner), session, None, before + poll)
  {
    WaitingActs(before, session, prior);
  }

  // Small facts about whose acts a history holds

  lemma ForConcat(a: History, b: History, session: string)
    requires For(a, session) && For(b, session)
    ensures For(a + b, session)
  {}

  lemma WaitsNothing(session: string)
    ensures For([], session) && OnlyWaits([])
  {}

  lemma WaitsAfter(session: string, before: History, e: Event)
    requires For(before, session) && OnlyWaits(before) && e.session == session
    requires e.act.ReadPidFile? || e.act.Probe? || e.act.ProbeRaw? || e.act.Sleep?
    ensures For(before + [e], session) && OnlyWaits(before + [e])
  {}

  lemma WaitsOnly(done: History)
    requires OnlyWaits(done)
    ensures forall e :: e in done ==> !e.act.Run? && !e.act.SendSignal? && !e.act.RemoveRecord?
  {}

  lemma WaitsAreHandsOff(done: History)
    requires OnlyWaits(done)
    ensures HandsOff(done)
  {}

  lemma HandsOffConcat(a: History, b: History)
    requires HandsOff(a) && HandsOff(b)
    ensures HandsOff(a + b)
  {}
}
