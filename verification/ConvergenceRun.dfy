/** The apply sequence of local convergence, with its repair calls
    (scripts/converge-local-runtime.js:68-191, 298-411, 454-490). */
module ConvergenceRun {
  import opened JsValues
  import opened Convergence
  import HandoffReport

  // ---------------------------------------------------------------- the machine

  /** One child process: whether it could not be started, and whether it exited with 0. */
  datatype Spawn = Spawn(startError: bool, ok: bool)

  datatype PrepareReply = PrepareReply(success: bool, prepared: bool, browserPid: Js<int>, cdpUrl: Js<string>)

  datatype ResumeReply = ResumeReply(success: bool, browserPid: Js<int>, cdpUrl: Js<string>)

  datatype KillOutcome = Delivered | Gone | Refused

  /** Every answer the machine may give, by the time it is asked; None is output that
      does not parse. */
  datatype Machine = Machine(
    spawn: nat -> Spawn,
    install: nat -> Option<Install>,
    remoteView: nat -> Option<RemoteView>,
    prepare: (nat, string) -> Option<PrepareReply>,
    resume: (nat, string) -> Option<ResumeReply>,
    routePool: nat -> bool,
    kill: (nat, int) -> KillOutcome,
    metadata: nat -> seq<string>)

  datatype StepName =
    | Publish | EnsurePostgres | RoutePoolReadiness | Reconcile | ProvisionFixtures | RestoreDisplays | GrantAccess
    | InstallDoctor | RemoteViewDoctor | PrepareHandoff(session: string) | ResumeHandoff(session: string) | CloseSession(session: string)

  datatype StepRecord = StepRecord(name: StepName, required: bool, success: bool)

  datatype Reason = PrepareFailed | ResumeFailed | RetirementFailed | UnsupportedShape

  datatype Skip = Skip(session: string, reason: Reason)

  datatype HandoffRemedy = HandoffRemedy(
    session: string, prepared: bool, browserPid: Js<int>, cdpUrl: Js<string>,
    resumed: bool, resumedBrowserPid: Js<int>, resumedCdpUrl: Js<string>, idleDaemonRetired: bool)

  datatype Event =
    | ReadDoctor(install: Install)
    | ListMetadata(names: seq<string>)
    | Prepare(session: string, prepareReply: PrepareReply)
    | Resume(session: string, resumeReply: ResumeReply)
    | Kill(pid: int, terminates: bool, outcome: KillOutcome)
    | CloseMetadata(session: string)

  type Trace = seq<Event>

  // ---------------------------------------------------------------- what is promised

  /** isSafeStaleDaemonRemedy. */
  predicate SafeRemedy(argv: seq<Option<string>>) {
    && |argv| == 4
    && argv[0] == Some("agent-browser") && argv[1] == Some("close") && argv[2] == Some("--session")
    && argv[3].Some? && (exists c :: c in argv[3].value && !JsSpace(c)) && argv[3].value[0] != '-'
  }

  /** JavaScript white space, as String.trim removes it. */
  predicate JsSpace(c: char) {
    || '\U{0009}' <= c <= '\U{000D}' || c == ' ' || c == '\U{00A0}' || c == '\U{FEFF}' || c == '\U{1680}'
    || '\U{2000}' <= c <= '\U{200A}' || c == '\U{2028}' || c == '\U{2029}' || c == '\U{202F}' || c == '\U{205F}' || c == '\U{3000}'
  }

  predicate Repairable(c: Candidate) {
    c.listenerAuthority || SafeRemedy(c.argv)
  }

  predicate Listed(e: Event, session: string) {
    e.ReadDoctor? && var cs := Candidates(e.install); Find(cs, session) < |cs|
  }

  predicate Reads(e: Event, c: Candidate) {
    e.ReadDoctor? && c in Candidates(e.install)
  }

  ghost predicate NoReading(trace: Trace, lo: nat, hi: nat)
    requires hi <= |trace|
  {
    forall x :: lo <= x < hi ==> !trace[x].ReadDoctor?
  }

  /** The last two doctor readings before `k`: the first reported the candidate, the
      second confirmed its session. */
  ghost predicate ReadAt(trace: Trace, k: nat, c: Candidate, i: nat, j: nat)
    requires k <= |trace|
  {
    i < j < k && Reads(trace[i], c) && Listed(trace[j], c.session) && NoReading(trace, i + 1, j) && NoReading(trace, j + 1, k)
  }

  ghost predicate ReadTwice(trace: Trace, k: nat, c: Candidate)
    requires k <= |trace|
  {
    exists i: nat, j: nat :: ReadAt(trace, k, c, i, j)
  }

  ghost predicate NamedTwice(trace: Trace, k: nat, session: string)
    requires k <= |trace|
  {
    exists i, j :: 0 <= i < j < k && trace[i].ListMetadata? && trace[j].ListMetadata? && session in trace[i].names && session in trace[j].names
  }

  predicate TouchedFor(e: Event, c: Candidate) {
    match e
    case Prepare(s, _) => s == c.session && Repairable(c)
    case Resume(s, _) => s == c.session && Repairable(c)
    case Kill(pid, _, _) => c.listenerPid == Value(pid)
    case _ => false
  }

  predicate Touches(e: Event) {
    e.Prepare? || e.Resume? || e.Kill?
  }

  /** Nothing is touched that was not seen twice. */
  ghost predicate Confirmed(trace: Trace) {
    && (forall k: nat :: k < |trace| && Touches(trace[k]) ==> exists c :: ReadTwice(trace, k, c) && TouchedFor(trace[k], c))
    && (forall k: nat :: k < |trace| && trace[k].CloseMetadata? ==> NamedTwice(trace, k, trace[k].session))
  }

  predicate SameBrowser(p: PrepareReply, r: ResumeReply) {
    r.success && OrNull(r.browserPid) == OrNull(p.browserPid) && OrNull(r.cdpUrl) == OrNull(p.cdpUrl)
  }

  /** SIGTERM to `pid` right after `k`, and only looks at that process after it. */
  ghost predicate SignalTo(trace: Trace, k: nat, x: nat, pid: int)
    requires x < |trace|
  {
    trace[x].Kill? && trace[x].pid == pid && (trace[x].terminates <==> x == k + 1)
  }

  /** Right after `k` only `pid` was signalled, until it was observed gone. */
  ghost predicate GoneBy(trace: Trace, k: nat, pid: int) {
    && pid > 0
    && exists j :: k < j < |trace| && trace[j].Kill? && trace[j].outcome == Gone && forall x :: k < x <= j ==> SignalTo(trace, k, x, pid)
  }

  /** The candidate's handoff begun at `k` ended well: its browser came straight back
      under the same identity, or its own idle daemon was observed gone. */
  ghost predicate EndsWell(trace: Trace, k: nat, c: Candidate)
    requires k < |trace| && trace[k].Prepare?
  {
    && trace[k].session == c.session
    && trace[k].prepareReply.success
    && if trace[k].prepareReply.prepared then
         k + 1 < |trace| && trace[k+1].Resume? && trace[k+1].session == c.session && SameBrowser(trace[k].prepareReply, trace[k+1].resumeReply)
       else c.listenerPid.Value? && GoneBy(trace, k, c.listenerPid.v)
  }

  /** The handoff begun at `k` ended well for the candidate that was read twice. */
  ghost predicate SettledAt(trace: Trace, k: nat)
    requires k < |trace| && trace[k].Prepare?
  {
    exists c :: ReadTwice(trace, k, c) && EndsWell(trace, k, c)
  }

  ghost predicate Skips(skipped: seq<Skip>, session: string) {
    exists s :: s in skipped && s.session == session
  }

  ghost predicate Settled(trace: Trace, skipped: seq<Skip>) {
    forall k: nat :: k < |trace| && trace[k].Prepare? ==> SettledAt(trace, k) || Skips(skipped, trace[k].session)
  }

  /** The report entry says what the acts of one candidate were. */
  ghost predicate Reports(h: HandoffRemedy, done: Trace) {
    && done != [] && done[0].Prepare? && h.session == done[0].session
    && (var p := done[0].prepareReply;
        && p.success && h.prepared == p.prepared && h.browserPid == OrNull(p.browserPid) && h.cdpUrl == OrNull(p.cdpUrl))
    && (if h.prepared then
          && |done| == 2 && done[1].Resume?
          && (var r := done[1].resumeReply;
              h.resumed == r.success && h.resumedBrowserPid == OrNull(r.browserPid) && h.resumedCdpUrl == OrNull(r.cdpUrl))
        else
          !h.resumed && (h.idleDaemonRetired <==> exists e :: e in done[1..] && e.Kill? && e.outcome == Gone))
  }

  /** What one candidate adds to the report: one entry if its prepare succeeded. */
  ghost predicate Reported(before: seq<HandoffRemedy>, after: seq<HandoffRemedy>, done: Trace) {
    if done != [] && done[0].Prepare? && done[0].prepareReply.success then
      |after| == |before| + 1 && before == after[..|before|] && Reports(after[|before|], done)
    else after == before
  }

  /** retireConfirmedIdleDaemon: SIGTERM once, then looks, as long as the process takes it. */
  ghost predicate KillActs(m: Machine, tick: nat, acts: Trace, pid: int) {
    && 0 < |acts| <= PROBES + 1
    && (forall k: nat :: k < |acts| ==> acts[k] == Kill(pid, k == 0, m.kill(tick + k, pid)))
    && (forall k: nat :: k + 1 < |acts| ==> acts[k].outcome == Delivered)
    && (acts[|acts|-1].outcome == Delivered ==> |acts| == PROBES + 1)
  }

  /** What follows a prepare reply: nothing after a failure, one resume, or a retirement. */
  ghost predicate FinishActs(m: Machine, tick: nat, c: Candidate, p: PrepareReply, rest: Trace) {
    if !p.success then rest == []
    else if p.prepared then
      |rest| == 1 && rest[0].Resume? && rest[0].session == c.session && m.resume(tick + 1, c.session) == Some(rest[0].resumeReply)
    else if HandoffReport.Positive(c.listenerPid) then KillActs(m, tick, rest, c.listenerPid.v)
    else rest == []
  }

  /** What a repair of one candidate does, given what the machine answers from `tick` on. */
  ghost predicate RepairActs(m: Machine, tick: nat, c: Candidate, done: Trace) {
    if !Repairable(c) then done == []
    else
      && done != [] && done[0].Prepare? && done[0].session == c.session && m.prepare(tick + 1, c.session) == Some(done[0].prepareReply)
      && FinishActs(m, tick + 1, c, done[0].prepareReply, done[1..])
  }

  predicate EndsGone(done: Trace) {
    |done| > 1 && done[|done|-1].Kill? && done[|done|-1].outcome == Gone
  }

  /** What these acts add to the list of skipped remedies. */
  function SkipsOf(c: Candidate, done: Trace): seq<Skip> {
    if done == [] || !done[0].Prepare? then [Skip(c.session, UnsupportedShape)]
    else
      var p := done[0].prepareReply;
      if !p.success then [Skip(c.session, PrepareFailed)]
      else if p.prepared then
        if |done| > 1 && done[1].Resume? && SameBrowser(p, done[1].resumeReply) then [] else [Skip(c.session, ResumeFailed)]
      else if EndsGone(done) then [] else [Skip(c.session, RetirementFailed)]
  }

  /** What they add to the report of handoffs. */
  function RemediesOf(c: Candidate, done: Trace): seq<HandoffRemedy> {
    if done == [] || !done[0].Prepare? || !done[0].prepareReply.success then []
    else
      var p := done[0].prepareReply;
      var r := if p.prepared && |done| > 1 && done[1].Resume? then done[1].resumeReply else ResumeReply(false, Undefined, Undefined);
      [HandoffRemedy(
         c.session, p.prepared, OrNull(p.browserPid), OrNull(p.cdpUrl),
         r.success, if p.prepared then OrNull(r.browserPid) else Undefined, if p.prepared then OrNull(r.cdpUrl) else Undefined,
         !p.prepared && EndsGone(done))]
  }

  /** The list without what the last part added to it. */
  function Without<T>(list: seq<T>, added: nat): seq<T> {
    if added <= |list| then list[..|list|-added] else []
  }

  ghost predicate RepairedLast(m: Machine, c: Candidate, acts: Trace, skips: seq<Skip>, remedies: seq<HandoffRemedy>, tick: nat) {
    && RepairActs(m, tick, c, acts)
    && skips == Without(skips, |SkipsOf(c, acts)|) + SkipsOf(c, acts)
    && remedies == Without(remedies, |RemediesOf(c, acts)|) + RemediesOf(c, acts)
  }

  /** `acts` are the repairs of the confirmed candidates, one after the other and in
      order, and the two lists grew by exactly what those acts say. */
  ghost predicate Repaired(m: Machine, candidates: seq<Candidate>, confirmed: seq<Candidate>, acts: Trace, skips: seq<Skip>, remedies: seq<HandoffRemedy>)
    decreases |candidates|
  {
    if candidates == [] then acts == [] && skips == [] && remedies == []
    else
      var front, c := candidates[..|candidates|-1], candidates[|candidates|-1];
      if Find(confirmed, c.session) == |confirmed| then Repaired(m, front, confirmed, acts, skips, remedies)
      else
        exists n: nat, tick: nat ::
          && n <= |acts| && RepairedLast(m, c, acts[n..], skips, remedies, tick)
          && Repaired(m, front, confirmed, acts[..n], Without(skips, |SkipsOf(c, acts[n..])|), Without(remedies, |RemediesOf(c, acts[n..])|))
  }

  lemma RepairedNothing(m: Machine, confirmed: seq<Candidate>)
    ensures Repaired(m, [], confirmed, [], [], [])
  {}

  lemma RepairedUnconfirmed(m: Machine, candidates: seq<Candidate>, confirmed: seq<Candidate>, acts: Trace, skips: seq<Skip>, remedies: seq<HandoffRemedy>, c: Candidate)
    requires Repaired(m, candidates, confirmed, acts, skips, remedies) && Find(confirmed, c.session) == |confirmed|
    ensures Repaired(m, candidates + [c], confirmed, acts, skips, remedies)
  {
    hide RepairedLast;
    assert (candidates + [c])[..|candidates|] == candidates;
  }

  lemma RepairedStep(m: Machine, candidates: seq<Candidate>, confirmed: seq<Candidate>, acts: Trace, skips: seq<Skip>, remedies: seq<HandoffRemedy>,
                     c: Candidate, step: Trace, tick: nat)
    requires Repaired(m, candidates, confirmed, acts, skips, remedies) && Find(confirmed, c.session) < |confirmed| && RepairActs(m, tick, c, step)
    ensures Repaired(m, candidates + [c], confirmed, acts + step, skips + SkipsOf(c, step), remedies + RemediesOf(c, step))
  {
    hide RepairActs, SkipsOf, RemediesOf;
    var all, n := acts + step, |acts|;
    assert (candidates + [c])[..|candidates|] == candidates && all[..n] == acts && all[n..] == step;
    assert Without(skips + SkipsOf(c, step), |SkipsOf(c, step)|) == skips;
    assert Without(remedies + RemediesOf(c, step), |RemediesOf(c, step)|) == remedies;
    assert RepairedLast(m, c, all[n..], skips + SkipsOf(c, step), remedies + RemediesOf(c, step), tick);
  }

  /** The same for the acts of one candidate alone. */
  ghost predicate SettledFor(done: Trace, c: Candidate, skipped: seq<Skip>) {
    forall k: nat :: k < |done| && done[k].Prepare? ==> EndsWell(done, k, c) || Skips(skipped, done[k].session)
  }

  predicate Kept(h: HandoffRemedy) {
    if h.prepared then h.resumed && h.resumedBrowserPid == h.browserPid && h.resumedCdpUrl == h.cdpUrl else h.idleDaemonRetired
  }

  ghost predicate Accounted(handoffs: seq<HandoffRemedy>, skipped: seq<Skip>) {
    forall h :: h in handoffs ==> Kept(h) || Skips(skipped, h.session)
  }

  ghost predicate NoRequiredFailure(steps: seq<StepRecord>) {
    forall s :: s in steps ==> !s.required || s.success
  }

  ghost predicate Did(steps: seq<StepRecord>, name: StepName) {
    exists s :: s in steps && s.name == name
  }

  ghost predicate AllFor(done: Trace, c: Candidate) {
    forall e :: e in done ==> TouchedFor(e, c)
  }

  /** The candidate's handoff was begun, or it is recorded as skipped. */
  ghost predicate Served(trace: Trace, skipped: seq<Skip>, session: string) {
    (exists k :: 0 <= k < |trace| && trace[k].Prepare? && trace[k].session == session) || Skips(skipped, session)
  }

  // ---------------------------------------------------------------- growth

  lemma TwiceGrows(trace: Trace, done: Trace, k: nat, c: Candidate)
    requires k <= |trace| && ReadTwice(trace, k, c)
    ensures ReadTwice(trace + done, k, c)
  {
    hide Reads, Listed;
    var i: nat, j: nat :| ReadAt(trace, k, c, i, j);
    assert forall x :: 0 <= x < k ==> (trace + done)[x] == trace[x];
    assert ReadAt(trace + done, k, c, i, j);
  }

  lemma TwiceLater(trace: Trace, k: nat, l: nat, c: Candidate)
    requires k <= l <= |trace| && ReadTwice(trace, k, c) && NoReading(trace, k, l)
    ensures ReadTwice(trace, l, c)
  {
    hide Reads, Listed;
    var i: nat, j: nat :| ReadAt(trace, k, c, i, j);
    assert ReadAt(trace, l, c, i, j);
  }

  lemma NamedTwiceGrows(trace: Trace, done: Trace, k: nat, session: string)
    requires k <= |trace| && NamedTwice(trace, k, session)
    ensures NamedTwice(trace + done, k, session)
  {
    var i, j :| 0 <= i < j < k && trace[i].ListMetadata? && trace[j].ListMetadata? && session in trace[i].names && session in trace[j].names;
    assert (trace + done)[i] == trace[i] && (trace + done)[j] == trace[j];
  }

  lemma ConfirmedGrows(trace: Trace, done: Trace)
    requires Confirmed(trace)
    requires forall k: nat :: |trace| <= k < |trace + done| && Touches((trace + done)[k]) ==>
               exists c :: ReadTwice(trace + done, k, c) && TouchedFor((trace + done)[k], c)
    requires forall k: nat :: |trace| <= k < |trace + done| && (trace + done)[k].CloseMetadata? ==> NamedTwice(trace + done, k, (trace + done)[k].session)
    ensures Confirmed(trace + done)
  {
    hide ReadTwice, NamedTwice, TouchedFor, Touches;
    var longer := trace + done;
    forall k: nat | k < |longer| && Touches(longer[k]) ensures exists c :: ReadTwice(longer, k, c) && TouchedFor(longer[k], c) {
      if k < |trace| {
        assert longer[k] == trace[k];
        var c :| ReadTwice(trace, k, c) && TouchedFor(trace[k], c);
        TwiceGrows(trace, done, k, c);
      }
    }
    forall k: nat | k < |longer| && longer[k].CloseMetadata? ensures NamedTwice(longer, k, longer[k].session) {
      if k < |trace| {
        assert longer[k] == trace[k];
        NamedTwiceGrows(trace, done, k, trace[k].session);
      }
    }
  }

  lemma ActsAreNoReadings(done: Trace, c: Candidate)
    requires AllFor(done, c)
    ensures NoReading(done, 0, |done|) && forall k :: 0 <= k < |done| ==> TouchedFor(done[k], c)
  {
    assert forall k :: 0 <= k < |done| ==> done[k] in done;
  }

  /** Acts for one candidate that was seen twice. */
  lemma ConfirmedFor(trace: Trace, done: Trace, c: Candidate)
    requires Confirmed(trace) && ReadTwice(trace, |trace|, c) && AllFor(done, c)
    ensures Confirmed(trace + done)
  {
    hide Confirmed, ReadTwice, NamedTwice, AllFor, TouchedFor;
    var longer := trace + done;
    ActsAreNoReadings(done, c);
    assert forall k :: |trace| <= k < |longer| ==> longer[k] == done[k - |trace|];
    TwiceGrows(trace, done, |trace|, c);
    forall k: nat | |trace| <= k < |longer| ensures ReadTwice(longer, k, c) && TouchedFor(longer[k], c) {
      TwiceLater(longer, |trace|, k, c);
    }
    TouchesOnly(longer, |trace|, c);
    ConfirmedGrows(trace, done);
  }

  lemma TouchesOnly(trace: Trace, lo: nat, c: Candidate)
    requires forall k :: lo <= k < |trace| ==> TouchedFor(trace[k], c)
    ensures forall k :: lo <= k < |trace| ==> !trace[k].CloseMetadata?
  {}

  lemma ConfirmedReading(trace: Trace, e: Event)
    requires Confirmed(trace) && (e.ReadDoctor? || e.ListMetadata? || (e.CloseMetadata? && NamedTwice(trace, |trace|, e.session)))
    ensures Confirmed(trace + [e])
  {
    hide Confirmed, ReadTwice, NamedTwice;
    if e.CloseMetadata? {
      NamedTwiceGrows(trace, [e], |trace|, e.session);
    }
    ConfirmedGrows(trace, [e]);
  }

  lemma EndsWellGrows(trace: Trace, done: Trace, k: nat, c: Candidate)
    requires k < |trace| && trace[k].Prepare? && EndsWell(trace, k, c)
    ensures (trace + done)[k].Prepare? && EndsWell(trace + done, k, c)
  {
    var longer := trace + done;
    assert forall x :: 0 <= x < |trace| ==> longer[x] == trace[x];
    if !trace[k].prepareReply.prepared {
      var j :| k < j < |trace| && trace[j].Kill? && trace[j].outcome == Gone && forall x :: k < x <= j ==> SignalTo(trace, k, x, c.listenerPid.v);
      forall x | k < x <= j ensures SignalTo(longer, k, x, c.listenerPid.v) {
        assert SignalTo(trace, k, x, c.listenerPid.v);
      }
      assert longer[j] == trace[j];
    }
  }

  lemma EndsWellIn(trace: Trace, done: Trace, k: nat, c: Candidate)
    requires k < |done| && done[k].Prepare? && EndsWell(done, k, c)
    ensures (trace + done)[|trace| + k].Prepare? && EndsWell(trace + done, |trace| + k, c)
  {
    var longer := trace + done;
    assert forall x :: 0 <= x < |done| ==> longer[|trace| + x] == done[x];
    if !done[k].prepareReply.prepared {
      var j :| k < j < |done| && done[j].Kill? && done[j].outcome == Gone && forall x :: k < x <= j ==> SignalTo(done, k, x, c.listenerPid.v);
      assert longer[|trace| + j] == done[j];
      var begun := |trace| + k;
      forall x: nat | begun < x <= |trace| + j ensures SignalTo(longer, begun, x, c.listenerPid.v) {
        assert SignalTo(done, k, x - |trace|, c.listenerPid.v);
      }
    }
  }

  lemma SettledGrows(trace: Trace, done: Trace, k: nat)
    requires k < |trace| && trace[k].Prepare? && SettledAt(trace, k)
    ensures (trace + done)[k].Prepare? && SettledAt(trace + done, k)
  {
    hide ReadTwice, EndsWell;
    var c :| ReadTwice(trace, k, c) && EndsWell(trace, k, c);
    TwiceGrows(trace, done, k, c);
    EndsWellGrows(trace, done, k, c);
  }

  lemma SettledIn(trace: Trace, done: Trace, k: nat, c: Candidate)
    requires k < |done| && done[k].Prepare? && EndsWell(done, k, c)
    requires ReadTwice(trace, |trace|, c) && AllFor(done, c)
    ensures (trace + done)[|trace| + k].Prepare? && SettledAt(trace + done, |trace| + k)
  {
    hide ReadTwice, EndsWell, AllFor;
    ActsAreNoReadings(done, c);
    assert forall x :: |trace| <= x < |trace + done| ==> (trace + done)[x] == done[x - |trace|];
    TwiceGrows(trace, done, |trace|, c);
    TwiceLater(trace + done, |trace|, |trace| + k, c);
    EndsWellIn(trace, done, k, c);
  }

  /** The acts for a candidate that was read twice, put behind the run so far. */
  lemma SettledStep(trace: Trace, skipped: seq<Skip>, done: Trace, longer: seq<Skip>, c: Candidate)
    requires Settled(trace, skipped) && SettledFor(done, c, longer) && skipped <= longer
    requires ReadTwice(trace, |trace|, c) && AllFor(done, c)
    ensures Settled(trace + done, longer)
  {
    hide SettledAt, Skips, ReadTwice, AllFor, EndsWell;
    forall k: nat | k < |trace + done| && (trace + done)[k].Prepare? ensures SettledAt(trace + done, k) || Skips(longer, (trace + done)[k].session) {
      if k < |trace| {
        assert (trace + done)[k] == trace[k];
        if SettledAt(trace, k) {
          SettledGrows(trace, done, k);
        } else {
          SkipsGrow(skipped, longer, trace[k].session);
        }
      } else {
        var i := k - |trace|;
        assert (trace + done)[k] == done[i];
        if EndsWell(done, i, c) {
          SettledIn(trace, done, i, c);
        }
      }
    }
  }

  lemma SkipsGrow(skipped: seq<Skip>, longer: seq<Skip>, session: string)
    requires skipped <= longer && Skips(skipped, session)
    ensures Skips(longer, session)
  {
    var s :| s in skipped && s.session == session;
    assert s in longer;
  }

  lemma AccountedStep(handoffs: seq<HandoffRemedy>, skipped: seq<Skip>, more: seq<HandoffRemedy>, longer: seq<Skip>)
    requires Accounted(handoffs, skipped) && Accounted(more, longer) && skipped <= longer
    ensures Accounted(handoffs + more, longer)
  {
    hide Kept, Skips;
    forall h | h in handoffs + more ensures Kept(h) || Skips(longer, h.session) {
      if h in handoffs && !Kept(h) {
        SkipsGrow(skipped, longer, h.session);
      }
    }
  }

  lemma NothingFor(c: Candidate, trace: Trace)
    ensures AllFor([], c) && trace + [] == trace && Accounted([], [])
    ensures forall skipped :: Accounted([], skipped)
  {}

  lemma NothingSettled(c: Candidate, skipped: seq<Skip>)
    ensures SettledFor([], c, skipped)
  {}

  lemma PreparedFor(c: Candidate, p: PrepareReply)
    requires Repairable(c)
    ensures AllFor([Prepare(c.session, p)], c)
  {}

  lemma AllForBoth(a: Trace, b: Trace, c: Candidate)
    requires AllFor(a, c) && AllFor(b, c)
    ensures AllFor(a + b, c)
  {}

  lemma RetiredSettled(c: Candidate, p: PrepareReply, done: Trace, skipped: seq<Skip>)
    requires p.success && !p.prepared && forall e :: e in done ==> e.Kill? && c.listenerPid == Value(e.pid) && e.pid > 0
    requires forall k: nat :: k < |done| ==> (done[k].terminates <==> k == 0)
    requires (exists e :: e in done && e.outcome == Gone) || Skips(skipped, c.session)
    ensures SettledFor([Prepare(c.session, p)] + done, c, skipped)
  {
    hide Skips;
    var all := [Prepare(c.session, p)] + done;
    forall k: nat | 0 < k < |all| ensures all[k].Kill? && c.listenerPid == Value(all[k].pid) && all[k].pid > 0 && (all[k].terminates <==> k == 1) {
      assert all[k] == done[k-1] && done[k-1] in done;
    }
    assert all[0] == Prepare(c.session, p);
    if !Skips(skipped, c.session) {
      var e :| e in done && e.outcome == Gone;
      var j :| 0 <= j < |done| && done[j] == e;
      assert all[j+1] == done[j];
      forall x: nat | 0 < x <= j + 1 ensures SignalTo(all, 0, x, c.listenerPid.v) {}
      assert GoneBy(all, 0, c.listenerPid.v) && EndsWell(all, 0, c);
    }
  }

  lemma NothingReported(before: seq<HandoffRemedy>, c: Candidate)
    ensures before + [] == before && RemediesOf(c, []) == [] && Reported(before, before, [])
  {}

  lemma ReportedBy(m: Machine, tick: nat, before: seq<HandoffRemedy>, after: seq<HandoffRemedy>, c: Candidate, done: Trace)
    requires RepairActs(m, tick, c, done) && Repairable(c) && after == before + RemediesOf(c, done)
    ensures Reported(before, after, done)
  {
    var p, rest := done[0].prepareReply, done[1..];
    if p.success && !p.prepared {
      KillsAreFor(m, tick + 1, rest, c);
      assert rest != [] ==> done[|done|-1] == rest[|rest|-1];
    }
  }

  lemma KillsAreFor(m: Machine, tick: nat, done: Trace, c: Candidate)
    requires if HandoffReport.Positive(c.listenerPid) then KillActs(m, tick, done, c.listenerPid.v) else done == []
    ensures forall e :: e in done ==> e.Kill? && c.listenerPid == Value(e.pid) && e.pid > 0
    ensures forall k: nat :: k < |done| ==> (done[k].terminates <==> k == 0)
    ensures (exists e :: e in done && e.outcome == Gone) <==> done != [] && done[|done|-1].outcome == Gone
  {
    if done != [] {
      assert done[|done|-1] in done;
    }
  }

  lemma SkippedPrepare(c: Candidate, p: PrepareReply, skipped: seq<Skip>)
    requires Skips(skipped, c.session)
    ensures SettledFor([Prepare(c.session, p)], c, skipped)
  {}

  lemma SeenTwice(before: Trace, acts: Trace, at: nat, install: Install, confirmation: Install, c: Candidate)
    requires at + 1 < |before| && before[at] == ReadDoctor(install) && before[|before|-1] == ReadDoctor(confirmation)
    requires c in Candidates(install) && Find(Candidates(confirmation), c.session) < |Candidates(confirmation)|
    requires NoReading(before, at + 1, |before| - 1) && NoReading(acts, 0, |acts|)
    ensures ReadTwice(before + acts, |before + acts|, c)
  {
    hide Candidates;
    var trace, second := before + acts, |before| - 1;
    assert forall x :: 0 <= x < |before| ==> trace[x] == before[x];
    assert forall x :: second < x < |trace| ==> trace[x] == acts[x - |before|];
    assert ReadAt(trace, |trace|, c, at, second);
  }

  lemma NoActsNoReadings()
    ensures NoReading([], 0, 0)
  {}

  lemma MoreActs(acts: Trace, done: Trace, c: Candidate)
    requires NoReading(acts, 0, |acts|) && AllFor(done, c)
    ensures NoReading(acts + done, 0, |acts + done|)
  {
    ActsAreNoReadings(done, c);
  }

  lemma NamedInBoth(trace: Trace, at: nat, session: string)
    requires at + 1 < |trace| && trace[at].ListMetadata? && trace[at+1].ListMetadata?
    requires session in trace[at].names && session in trace[at+1].names
    ensures NamedTwice(trace, |trace|, session)
  {}

  /** The reading lists nobody, or a later reading confirmed its candidates and every
      confirmed one was served. */
  ghost predicate Treated(trace: Trace, skipped: seq<Skip>, install: Install) {
    || Candidates(install) == []
    || exists confirmation :: ReadDoctor(confirmation) in trace && AllServed(trace, skipped, install, confirmation)
  }

  ghost predicate AllServed(trace: Trace, skipped: seq<Skip>, install: Install, confirmation: Install) {
    forall c :: c in Candidates(install) && Listed(ReadDoctor(confirmation), c.session) ==> Served(trace, skipped, c.session)
  }

  lemma TreatedGrows(trace: Trace, skipped: seq<Skip>, install: Install, longer: Trace, more: seq<Skip>)
    requires Treated(trace, skipped, install) && trace <= longer && skipped <= more
    ensures Treated(longer, more, install)
  {
    hide Candidates, Listed, Served;
    if Candidates(install) != [] {
      var confirmation :| ReadDoctor(confirmation) in trace && AllServed(trace, skipped, install, confirmation);
      forall c | c in Candidates(install) && Listed(ReadDoctor(confirmation), c.session) ensures Served(longer, more, c.session) {
        ServedLater(trace, skipped, longer, more, c.session);
      }
      assert ReadDoctor(confirmation) in longer && AllServed(longer, more, install, confirmation);
    }
  }

  lemma ServedLater(trace: Trace, skipped: seq<Skip>, longer: Trace, more: seq<Skip>, session: string)
    requires Served(trace, skipped, session) && trace <= longer && skipped <= more
    ensures Served(longer, more, session)
  {
    hide Skips;
    if Skips(skipped, session) {
      SkipsGrow(skipped, more, session);
    } else {
      var k :| 0 <= k < |trace| && trace[k].Prepare? && trace[k].session == session;
      assert longer[k] == trace[k];
    }
  }

  /** The names of the first listing that the second confirms, in order. */
  function InBoth(first: seq<string>, second: seq<string>): (r: seq<string>)
    ensures forall s :: s in r <==> s in first && s in second
  {
    if first == [] then []
    else
      var prior, last := InBoth(first[..|first|-1], second), first[|first|-1];
      assert first == first[..|first|-1] + [last];
      if last in second then prior + [last] else prior
  }

  lemma DidStays(steps: seq<StepRecord>, longer: seq<StepRecord>)
    requires steps <= longer
    ensures forall name :: Did(steps, name) ==> Did(longer, name)
  {
    forall name | Did(steps, name) ensures Did(longer, name) {
      var s :| s in steps && s.name == name;
      assert s in longer;
    }
  }

  lemma ActsServe(m: Machine, tick: nat, c: Candidate, done: Trace)
    requires RepairActs(m, tick, c, done)
    ensures Served(done, SkipsOf(c, done), c.session)
  {
    hide FinishActs;
    if done == [] {
      assert Skip(c.session, UnsupportedShape) in SkipsOf(c, done);
    }
  }

  lemma ServedWithin(before: Trace, acts: Trace, earlier: seq<Skip>, skips: seq<Skip>, session: string)
    requires Served(acts, skips, session)
    ensures Served(before + acts, earlier + skips, session)
  {
    if Skips(skips, session) {
      var s :| s in skips && s.session == session;
      assert s in earlier + skips;
    } else {
      var k :| 0 <= k < |acts| && acts[k].Prepare? && acts[k].session == session;
      assert (before + acts)[|before| + k] == acts[k];
    }
  }

  /** The repair of the last candidate, taken off. */
  lemma LastRepair(m: Machine, candidates: seq<Candidate>, confirmed: seq<Candidate>, acts: Trace, skips: seq<Skip>, remedies: seq<HandoffRemedy>)
    returns (n: nat, tick: nat)
    requires candidates != [] && Repaired(m, candidates, confirmed, acts, skips, remedies)
    requires var c := candidates[|candidates|-1]; Find(confirmed, c.session) < |confirmed|
    ensures var c := candidates[|candidates|-1];
            && n <= |acts| && RepairedLast(m, c, acts[n..], skips, remedies, tick)
            && Repaired(m, candidates[..|candidates|-1], confirmed, acts[..n],
                        Without(skips, |SkipsOf(c, acts[n..])|), Without(remedies, |RemediesOf(c, acts[n..])|))
  {
    hide RepairedLast, RepairActs, SkipsOf, RemediesOf, Find, Without;
    var c := candidates[|candidates|-1];
    n, tick :|
      && n <= |acts| && RepairedLast(m, c, acts[n..], skips, remedies, tick)
      && Repaired(m, candidates[..|candidates|-1], confirmed, acts[..n],
                  Without(skips, |SkipsOf(c, acts[n..])|), Without(remedies, |RemediesOf(c, acts[n..])|));
  }

  lemma LastServes(m: Machine, c: Candidate, before: Trace, done: Trace, skips: seq<Skip>, remedies: seq<HandoffRemedy>, tick: nat)
    requires RepairedLast(m, c, done, skips, remedies, tick)
    ensures Served(before + done, skips, c.session)
  {
    hide RepairActs, SkipsOf, RemediesOf, Served, Without;
    ActsServe(m, tick, c, done);
    ServedWithin(before, done, Without(skips, |SkipsOf(c, done)|), SkipsOf(c, done), c.session);
  }

  lemma FrontServes(m: Machine, c: Candidate, session: string, before: Trace, done: Trace, skips: seq<Skip>, remedies: seq<HandoffRemedy>, tick: nat)
    requires RepairedLast(m, c, done, skips, remedies, tick)
    requires Served(before, Without(skips, |SkipsOf(c, done)|), session)
    ensures Served(before + done, skips, session)
  {
    hide RepairActs, SkipsOf, RemediesOf, Served, Without;
    ServedLater(before, Without(skips, |SkipsOf(c, done)|), before + done, skips, session);
  }

  lemma UnconfirmedLast(m: Machine, candidates: seq<Candidate>, confirmed: seq<Candidate>, acts: Trace, skips: seq<Skip>, remedies: seq<HandoffRemedy>)
    requires candidates != [] && Repaired(m, candidates, confirmed, acts, skips, remedies)
    requires Find(confirmed, candidates[|candidates|-1].session) == |confirmed|
    ensures Repaired(m, candidates[..|candidates|-1], confirmed, acts, skips, remedies)
  {
    hide RepairedLast, Find;
  }

  lemma InFrontOrLast<T>(list: seq<T>, x: T)
    requires x in list
    ensures x in list[..|list|-1] || x == list[|list|-1]
  {
    assert list == list[..|list|-1] + [list[|list|-1]];
  }

  /** Every confirmed candidate was served. */
  lemma {:induction false} RepairedServes(m: Machine, candidates: seq<Candidate>, confirmed: seq<Candidate>, acts: Trace, skips: seq<Skip>, remedies: seq<HandoffRemedy>, c: Candidate)
    requires Repaired(m, candidates, confirmed, acts, skips, remedies) && c in candidates && Find(confirmed, c.session) < |confirmed|
    ensures Served(acts, skips, c.session)
    decreases |candidates|
  {
    hide *;
    var front, last := candidates[..|candidates|-1], candidates[|candidates|-1];
    InFrontOrLast(candidates, c);
    if Find(confirmed, last.session) < |confirmed| {
      var n, tick := LastRepair(m, candidates, confirmed, acts, skips, remedies);
      assert acts == acts[..n] + acts[n..];
      if c in front {
        RepairedServes(m, front, confirmed, acts[..n], Without(skips, |SkipsOf(last, acts[n..])|), Without(remedies, |RemediesOf(last, acts[n..])|), c);
        FrontServes(m, last, c.session, acts[..n], acts[n..], skips, remedies, tick);
      } else {
        LastServes(m, last, acts[..n], acts[n..], skips, remedies, tick);
      }
    } else {
      UnconfirmedLast(m, candidates, confirmed, acts, skips, remedies);
      RepairedServes(m, front, confirmed, acts, skips, remedies, c);
    }
  }

  lemma RepairedTreats(m: Machine, install: Install, confirmation: Install, acts: Trace, skips: seq<Skip>, remedies: seq<HandoffRemedy>,
                       before: Trace, earlier: seq<Skip>)
    requires Repaired(m, Candidates(install), Candidates(confirmation), acts, skips, remedies)
    requires before != [] && before[|before|-1] == ReadDoctor(confirmation)
    ensures Treated(before + acts, earlier + skips, install)
  {
    hide Repaired, Candidates, Served;
    var trace, skipped := before + acts, earlier + skips;
    forall c | c in Candidates(install) && Listed(ReadDoctor(confirmation), c.session) ensures Served(trace, skipped, c.session) {
      RepairedServes(m, Candidates(install), Candidates(confirmation), acts, skips, remedies, c);
      ServedWithin(before, acts, earlier, skips, c.session);
    }
    assert trace[|before|-1] == ReadDoctor(confirmation) && ReadDoctor(confirmation) in trace;
    assert AllServed(trace, skipped, install, confirmation);
  }

  lemma SettledByQuiet(trace: Trace, e: Event, skipped: seq<Skip>)
    requires Settled(trace, skipped) && !e.Prepare?
    ensures Settled(trace + [e], skipped)
  {
    hide SettledAt, Skips;
    forall k: nat | k < |trace + [e]| && (trace + [e])[k].Prepare? ensures SettledAt(trace + [e], k) || Skips(skipped, (trace + [e])[k].session) {
      assert (trace + [e])[k] == trace[k];
      if SettledAt(trace, k) {
        SettledGrows(trace, [e], k);
      }
    }
  }

  lemma SettledByReading(trace: Trace, install: Install, skipped: seq<Skip>)
    requires Settled(trace, skipped)
    ensures Settled(trace + [ReadDoctor(install)], skipped)
  {
    SettledByQuiet(trace, ReadDoctor(install), skipped);
  }

  // ---------------------------------------------------------------- the script

  predicate MigrationRequired(nextAction: Js<string>) {
    nextAction in {Value("provision_second_guacamole_rdp_connection"), Value("repair_rdp_route_display_session")}
  }

  predicate DisplayRecoveryRequired(nextAction: Js<string>) {
    nextAction in {
      Value("open_route_specific_rdp_sessions_then_rerun_doctor"),
      Value("open_two_rdp_route_sessions_for_existing_agent_browser_rdp_user_then_rerun_doctor"),
      Value("repair_rdp_route_display_session")}
  }

  predicate AccessRequired(nextAction: Js<string>) {
    nextAction == Value("grant_route_display_access")
  }

  class Converger {
    const m: Machine
    var tick: nat
    var steps: seq<StepRecord>
    var skippedRemedies: seq<Skip>
    var handoffRemedies: seq<HandoffRemedy>
    var staleMetadataRemedies: seq<string>
    ghost var trace: Trace

    /** What holds as long as the script has not thrown. */
    ghost predicate Sound()
      reads this
    {
      && Confirmed(trace) && Settled(trace, skippedRemedies) && Accounted(handoffRemedies, skippedRemedies)
      && NoRequiredFailure(steps)
    }

    constructor (m: Machine)
      ensures this.m == m && Sound() && tick == 0 && trace == [] && skippedRemedies == [] && handoffRemedies == [] && staleMetadataRemedies == [] && steps == []
    {
      this.m := m;
      tick, steps, skippedRemedies, handoffRemedies, staleMetadataRemedies, trace := 0, [], [], [], [], [];
    }

    /** The last step could not be started, failed although required, or gave output
        that does not parse or does not do. */
    ghost predicate Threw()
      reads `tick, `steps
    {
      && tick > 0 && steps != []
      && var last := steps[|steps|-1];
         || m.spawn(tick - 1).startError || (last.required && !m.spawn(tick - 1).ok)
         || match last.name
            case PrepareHandoff(s) => m.prepare(tick, s).None?
            case ResumeHandoff(s) => m.resume(tick, s).None?
            case InstallDoctor => m.install(tick).None?
            case RemoteViewDoctor => m.remoteView(tick).None?
            case RoutePoolReadiness => !m.routePool(tick)
            case _ => false
    }

    /** runStep; false where it throws. */
    method RunStep(name: StepName, required: bool) returns (ok: bool)
      modifies `tick, `steps
      ensures tick == old(tick) + 1 && steps == old(steps) + [StepRecord(name, required, m.spawn(old(tick)).ok)]
      ensures ok <==> !m.spawn(old(tick)).startError && (!required || m.spawn(old(tick)).ok)
      ensures !ok ==> Threw()
      ensures ok ==> (NoRequiredFailure(old(steps)) ==> NoRequiredFailure(steps))
      ensures old(steps) <= steps && Did(steps, name)
    {
      var spawn := m.spawn(tick);
      steps := steps + [StepRecord(name, required, spawn.ok)];
      assert StepRecord(name, required, spawn.ok) in steps;
      tick := tick + 1;
      ok := !spawn.startError && (!required || spawn.ok);
    }

    /** The install doctor, as a JSON step. */
    method ReadInstall() returns (r: Option<Install>)
      requires Confirmed(trace)
      modifies `tick, `steps, `trace
      ensures old(steps) <= steps
      ensures Confirmed(trace)
      ensures r.Some? ==> trace == old(trace) + [ReadDoctor(r.value)] && (NoRequiredFailure(old(steps)) ==> NoRequiredFailure(steps))
      ensures r.None? ==> trace == old(trace) && Threw()
      ensures tick == old(tick) + 1 && (r.Some? <==> !m.spawn(old(tick)).startError && m.install(tick).Some?)
      ensures r.Some? ==> r == m.install(tick)
    {
      hide Confirmed;
      var ok := RunStep(InstallDoctor, false);
      r := if ok then m.install(tick) else None;
      if r.Some? {
        ConfirmedReading(trace, ReadDoctor(r.value));
        trace := trace + [ReadDoctor(r.value)];
      }
    }

    /** readDoctors. */
    method ReadDoctors() returns (r: Option<Reading>)
      requires Confirmed(trace)
      modifies `tick, `steps, `trace
      ensures old(steps) <= steps
      ensures Confirmed(trace) && old(trace) <= trace
      ensures r.Some? ==> trace == old(trace) + [ReadDoctor(r.value.install)] && (NoRequiredFailure(old(steps)) ==> NoRequiredFailure(steps))
      ensures r.None? ==> Threw() && forall e :: e in trace ==> e in old(trace) || e.ReadDoctor?
    {
      hide Confirmed;
      r := None;
      var install := ReadInstall();
      if install.Some? {
        var ok := RunStep(RemoteViewDoctor, false);
        var remote := m.remoteView(tick);
        if ok && remote.Some? {
          r := Some(Reading(install.value, remote.value));
        }
      }
    }

    /** retireConfirmedIdleDaemon: true only when the process was observed gone. */
    method RetireConfirmedIdleDaemon(pid: Js<int>) returns (gone: bool, ghost done: Trace)
      modifies `tick, `trace
      ensures trace == old(trace) + done
      ensures if HandoffReport.Positive(pid) then KillActs(m, old(tick), done, pid.v) else done == []
      ensures gone <==> done != [] && done[|done|-1].outcome == Gone
      ensures tick == old(tick) + |done|
    {
      gone, done := false, [];
      if !pid.Value? || pid.v <= 0 {
        return;
      }
      var outcome := m.kill(tick, pid.v);
      tick, trace, done := tick + 1, trace + [Kill(pid.v, true, outcome)], [Kill(pid.v, true, outcome)];
      if outcome != Delivered {
        return outcome == Gone, done;
      }
      for attempt := 0 to PROBES
        invariant trace == old(trace) + done && |done| == attempt + 1 && tick == old(tick) + |done|
        invariant forall k: nat :: k < |done| ==> done[k] == Kill(pid.v, k == 0, m.kill(old(tick) + k, pid.v))
        invariant forall k: nat :: k < |done| ==> done[k].outcome == Delivered
      {
        outcome := m.kill(tick, pid.v);
        tick, trace, done := tick + 1, trace + [Kill(pid.v, false, outcome)], done + [Kill(pid.v, false, outcome)];
        if outcome != Delivered {
          return outcome == Gone, done;
        }
      }
    }

    /** A `handoff` command for one session, as a JSON step. */
    method RunPrepare(session: string) returns (r: Option<PrepareReply>)
      modifies `tick, `steps, `trace
      ensures old(steps) <= steps && tick == old(tick) + 1
      ensures r == if m.spawn(old(tick)).startError then None else m.prepare(tick, session)
      ensures r.Some? ==> trace == old(trace) + [Prepare(session, r.value)] && (NoRequiredFailure(old(steps)) ==> NoRequiredFailure(steps))
      ensures r.None? ==> trace == old(trace) && Threw()
    {
      var ok := RunStep(PrepareHandoff(session), false);
      r := if ok then m.prepare(tick, session) else None;
      if r.Some? {
        trace := trace + [Prepare(session, r.value)];
      }
    }

    method RunResume(session: string) returns (r: Option<ResumeReply>)
      modifies `tick, `steps, `trace
      ensures old(steps) <= steps && tick == old(tick) + 1
      ensures r == if m.spawn(old(tick)).startError then None else m.resume(tick, session)
      ensures r.Some? ==> trace == old(trace) + [Resume(session, r.value)] && (NoRequiredFailure(old(steps)) ==> NoRequiredFailure(steps))
      ensures r.None? ==> trace == old(trace) && Threw()
    {
      var ok := RunStep(ResumeHandoff(session), false);
      r := if ok then m.resume(tick, session) else None;
      if r.Some? {
        trace := trace + [Resume(session, r.value)];
      }
    }

    method PushSkip(session: string, reason: Reason)
      modifies `skippedRemedies
      ensures skippedRemedies == old(skippedRemedies) + [Skip(session, reason)] && Skips(skippedRemedies, session)
    {
      skippedRemedies := skippedRemedies + [Skip(session, reason)];
      assert Skip(session, reason) in skippedRemedies;
    }

    /** The part of the loop body that resumes a prepared browser; false where it throws. */
    method ResumeOne(c: Candidate, p: PrepareReply) returns (ok: bool, ghost done: Trace, ghost more: seq<HandoffRemedy>)
      requires p.success && p.prepared && Repairable(c)
      modifies `tick, `steps, `trace, `skippedRemedies, `handoffRemedies
      ensures old(steps) <= steps
      ensures trace == old(trace) + done && AllFor(done, c) && handoffRemedies == old(handoffRemedies) + more && old(skippedRemedies) <= skippedRemedies
      ensures ok ==> |more| == 1 && Reports(more[0], [Prepare(c.session, p)] + done)
      ensures ok ==>
                && (NoRequiredFailure(old(steps)) ==> NoRequiredFailure(steps))
                && SettledFor([Prepare(c.session, p)] + done, c, skippedRemedies) && Accounted(more, skippedRemedies)
      ensures forall e :: e in done ==> !e.Prepare?
      ensures if ok then
                && |done| == 1 && done[0].Resume? && done[0].session == c.session && m.resume(old(tick) + 1, c.session) == Some(done[0].resumeReply)
                && skippedRemedies == old(skippedRemedies) + SkipsOf(c, [Prepare(c.session, p)] + done)
                && more == RemediesOf(c, [Prepare(c.session, p)] + done)
              else done == [] && Threw()
    {
      hide Skips, Repairable;
      ok, done, more := false, [], [];
      var r := RunResume(c.session);
      if r.None? {
        return;
      }
      done := [Resume(c.session, r.value)];
      var h := HandoffRemedy(c.session, true, OrNull(p.browserPid), OrNull(p.cdpUrl),
                             r.value.success, OrNull(r.value.browserPid), OrNull(r.value.cdpUrl), false);
      if !h.resumed || h.resumedBrowserPid != h.browserPid || h.resumedCdpUrl != h.cdpUrl {
        PushSkip(c.session, ResumeFailed);
      }
      handoffRemedies := handoffRemedies + [h];
      more, ok := [h], true;
      ghost var both := [Prepare(c.session, p)] + done;
      assert both == [Prepare(c.session, p), Resume(c.session, r.value)];
    }

    /** The part of the loop body that retires an idle daemon. */
    method RetireOne(c: Candidate, p: PrepareReply) returns (ghost done: Trace, ghost more: seq<HandoffRemedy>)
      requires p.success && !p.prepared
      modifies `tick, `trace, `skippedRemedies, `handoffRemedies
      ensures trace == old(trace) + done && AllFor(done, c) && handoffRemedies == old(handoffRemedies) + more && old(skippedRemedies) <= skippedRemedies
      ensures SettledFor([Prepare(c.session, p)] + done, c, skippedRemedies) && Accounted(more, skippedRemedies)
      ensures |more| == 1 && Reports(more[0], [Prepare(c.session, p)] + done)
      ensures forall e :: e in done ==> !e.Prepare?
      ensures if HandoffReport.Positive(c.listenerPid) then KillActs(m, old(tick), done, c.listenerPid.v) else done == []
      ensures skippedRemedies == old(skippedRemedies) + SkipsOf(c, [Prepare(c.session, p)] + done)
      ensures more == RemediesOf(c, [Prepare(c.session, p)] + done)
    {
      hide Skips;
      var gone;
      gone, done := RetireConfirmedIdleDaemon(c.listenerPid);
      KillsAreFor(m, old(tick), done, c);
      var h := HandoffRemedy(c.session, false, OrNull(p.browserPid), OrNull(p.cdpUrl), false, Undefined, Undefined, gone);
      if !gone {
        PushSkip(c.session, RetirementFailed);
      }
      handoffRemedies := handoffRemedies + [h];
      more := [h];
      RetiredSettled(c, p, done, skippedRemedies);
      assert ([Prepare(c.session, p)] + done)[1..] == done;
    }

    /** The loop body after a prepare reply that parsed; false where it throws. */
    method FinishRepair(c: Candidate, p: PrepareReply) returns (ok: bool, ghost rest: Trace, ghost more: seq<HandoffRemedy>)
      requires Repairable(c)
      modifies `tick, `steps, `trace, `skippedRemedies, `handoffRemedies
      ensures old(steps) <= steps
      ensures trace == old(trace) + rest && handoffRemedies == old(handoffRemedies) + more && old(skippedRemedies) <= skippedRemedies
      ensures AllFor([Prepare(c.session, p)] + rest, c) && forall e :: e in rest ==> !e.Prepare?
      ensures if ok then
                && (NoRequiredFailure(old(steps)) ==> NoRequiredFailure(steps))
                && SettledFor([Prepare(c.session, p)] + rest, c, skippedRemedies) && Accounted(more, skippedRemedies)
                && FinishActs(m, old(tick), c, p, rest)
                && skippedRemedies == old(skippedRemedies) + SkipsOf(c, [Prepare(c.session, p)] + rest)
                && more == RemediesOf(c, [Prepare(c.session, p)] + rest)
              else rest == [] && Threw() && p.success && p.prepared
    {
      hide SettledFor, Accounted, AllFor, Skips, Threw, KillActs, Repairable, NoRequiredFailure, Reports;
      PreparedFor(c, p);
      if !p.success {
        PushSkip(c.session, PrepareFailed);
        SkippedPrepare(c, p, skippedRemedies);
        NothingFor(c, trace);
        ok, rest, more := true, [], [];
        assert [Prepare(c.session, p)] + rest == [Prepare(c.session, p)];
      } else if p.prepared {
        ok, rest, more := ResumeOne(c, p);
      } else {
        rest, more := RetireOne(c, p);
        ok := true;
      }
      AllForBoth([Prepare(c.session, p)], rest, c);
    }

    /** One confirmed candidate: at most one prepare, answered for in the report. */
    method RepairOne(c: Candidate) returns (ok: bool, ghost done: Trace)
      requires Sound() && ReadTwice(trace, |trace|, c)
      modifies `tick, `steps, `trace, `skippedRemedies, `handoffRemedies
      ensures old(steps) <= steps
      ensures trace == old(trace) + done && Confirmed(trace) && old(skippedRemedies) <= skippedRemedies
      ensures AllFor(done, c) && forall k :: 0 < k < |done| ==> !done[k].Prepare?
      ensures ok ==> Sound() && Served(done, skippedRemedies, c.session) && Reported(old(handoffRemedies), handoffRemedies, done)
      ensures if ok then
                && RepairActs(m, old(tick), c, done)
                && skippedRemedies == old(skippedRemedies) + SkipsOf(c, done) && handoffRemedies == old(handoffRemedies) + RemediesOf(c, done)
              else
                && Threw() && Repairable(c)
                && (done == [] || (|done| == 1 && done[0].Prepare? && done[0].prepareReply.success && done[0].prepareReply.prepared))
    {
      hide Confirmed, Settled, SettledFor, Accounted, NoRequiredFailure, ReadTwice, AllFor, Skips, Reported, FinishActs, RemediesOf, Threw, Repairable;
      ghost var before, more := trace, [];
      done, ok := [], false;
      NothingFor(c, before);
      if !Repairable(c) {
        PushSkip(c.session, UnsupportedShape);
        NothingSettled(c, skippedRemedies);
        SettledStep(before, old(skippedRemedies), [], skippedRemedies, c);
        AccountedStep(handoffRemedies, old(skippedRemedies), [], skippedRemedies);
        NothingReported(handoffRemedies, c);
        return true, done;
      }
      var prepared := RunPrepare(c.session);
      if prepared.None? {
        return;
      }
      ghost var rest;
      ok, rest, more := FinishRepair(c, prepared.value);
      done := [Prepare(c.session, prepared.value)] + rest;
      assert done[1..] == rest && before + [Prepare(c.session, prepared.value)] + rest == before + done;
      assert forall k :: 0 < k < |done| ==> done[k] == rest[k-1] && rest[k-1] in rest;
      ConfirmedFor(before, done, c);
      if ok {
        SettledStep(before, old(skippedRemedies), done, skippedRemedies, c);
        AccountedStep(old(handoffRemedies), old(skippedRemedies), more, skippedRemedies);
        ReportedBy(m, old(tick), old(handoffRemedies), handoffRemedies, c, done);
        assert done[0].Prepare? && done[0].session == c.session;
      }
    }

    /** repairConfirmedStaleDaemons: every candidate that a second reading confirms is
        served, and nothing else is touched. `r` is None where it throws. */
    method RepairConfirmedStaleDaemons(install: Install, ghost at: nat) returns (r: Option<bool>, ghost confirmation: Install, ghost acts: Trace)
      requires Sound() && at < |trace| && trace[at] == ReadDoctor(install) && NoReading(trace, at + 1, |trace|)
      modifies `tick, `steps, `trace, `skippedRemedies, `handoffRemedies
      ensures old(steps) <= steps
      ensures Confirmed(trace) && old(trace) <= trace && old(skippedRemedies) <= skippedRemedies
      ensures r.Some? ==> Sound() && (r.value <==> Candidates(install) != [])
      ensures r == Some(false) ==> trace == old(trace) && skippedRemedies == old(skippedRemedies) && handoffRemedies == old(handoffRemedies)
      ensures r.Some? ==> Treated(trace, skippedRemedies, install)
      // what was done, reading by reading and act by act
      ensures r == Some(true) ==>
                && trace == old(trace) + [ReadDoctor(confirmation)] + acts && m.install(old(tick) + 1) == Some(confirmation)
                && old(handoffRemedies) <= handoffRemedies
                && Repaired(m, Candidates(install), Candidates(confirmation), acts,
                            skippedRemedies[|old(skippedRemedies)|..], handoffRemedies[|old(handoffRemedies)|..])
      ensures r.None? ==> Threw()
    {
      hide Confirmed, Settled, Accounted, NoRequiredFailure, ReadTwice, Candidates, Served, Repaired, RepairActs, SkipsOf, RemediesOf, Repairable, Reported, Threw;
      acts, confirmation := [], install;
      var candidates := StaleDaemonCandidates(install);
      if candidates == [] {
        return Some(false), confirmation, acts;
      }
      var again := ReadInstall();
      if again.None? {
        return None, confirmation, acts;
      }
      confirmation := again.value;
      SettledByReading(old(trace), confirmation, skippedRemedies);
      var confirmed := StaleDaemonCandidates(again.value);
      ghost var skips, remedies;
      var ok;
      ok, acts, skips, remedies := RepairEach(candidates, confirmed, install, confirmation, at);
      if !ok {
        return None, confirmation, acts;
      }
      RepairedTreats(m, install, confirmation, acts, skips, remedies, trace[..|old(trace)|+1], old(skippedRemedies));
      assert trace == trace[..|old(trace)|+1] + acts;
      r := Some(true);
    }

    /** The loop over the candidates of the first reading; false where it throws. */
    method RepairEach(candidates: seq<Candidate>, confirmed: seq<Candidate>, ghost install: Install, ghost confirmation: Install, ghost at: nat)
      returns (ok: bool, ghost acts: Trace, ghost skips: seq<Skip>, ghost remedies: seq<HandoffRemedy>)
      requires Sound() && candidates == Candidates(install) && confirmed == Candidates(confirmation)
      requires at + 1 < |trace| && trace[at] == ReadDoctor(install) && trace[|trace|-1] == ReadDoctor(confirmation) && NoReading(trace, at + 1, |trace| - 1)
      modifies `tick, `steps, `trace, `skippedRemedies, `handoffRemedies
      ensures old(steps) <= steps && Confirmed(trace) && old(trace) <= trace && old(skippedRemedies) <= skippedRemedies
      ensures if ok then
                && Sound() && trace == old(trace) + acts
                && skippedRemedies == old(skippedRemedies) + skips && handoffRemedies == old(handoffRemedies) + remedies
                && Repaired(m, candidates, confirmed, acts, skips, remedies)
              else Threw()
    {
      hide Confirmed, Settled, Accounted, NoRequiredFailure, ReadTwice, Candidates, Served, Repaired, RepairActs, SkipsOf, RemediesOf, Repairable, Reported, Threw, NoReading, AllFor;
      ok, acts, skips, remedies := true, [], [], [];
      RepairedNothing(m, confirmed);
      NoActsNoReadings();
      assert candidates[..0] == [] && trace == old(trace) + acts;
      for i := 0 to |candidates|
        invariant Sound() && old(steps) <= steps && trace == old(trace) + acts
        invariant skippedRemedies == old(skippedRemedies) + skips && handoffRemedies == old(handoffRemedies) + remedies
        invariant Repaired(m, candidates[..i], confirmed, acts, skips, remedies) && NoReading(acts, 0, |acts|)
      {
        var c := candidates[i];
        assert candidates[..i+1] == candidates[..i] + [c];
        if Find(confirmed, c.session) == |confirmed| {
          RepairedUnconfirmed(m, candidates[..i], confirmed, acts, skips, remedies, c);
        } else {
          SeenTwice(old(trace), acts, at, install, confirmation, c);
          ghost var tickBefore := tick;
          var repaired, done := RepairOne(c);
          if !repaired {
            return false, acts, skips, remedies;
          }
          RepairedStep(m, candidates[..i], confirmed, acts, skips, remedies, c, done, tickBefore);
          MoreActs(acts, done, c);
          acts, skips, remedies := acts + done, skips + SkipsOf(c, done), remedies + RemediesOf(c, done);
        }
      }
      assert candidates[..|candidates|] == candidates;
    }

    /** Read the doctors, repair what they list, and read again if anything was listed. */
    method ReadAndRepair() returns (r: Option<Reading>)
      requires Sound()
      modifies `tick, `steps, `trace, `skippedRemedies, `handoffRemedies
      ensures old(steps) <= steps
      ensures Confirmed(trace) && old(trace) <= trace && old(skippedRemedies) <= skippedRemedies
      ensures if r.Some? then Sound() else Threw()
    {
      hide Confirmed, Settled, Accounted, NoRequiredFailure, Repaired, Threw, Treated;
      r := ReadDoctors();
      if r.None? {
        return;
      }
      SettledByReading(old(trace), r.value.install, skippedRemedies);
      var repaired, confirmation, acts := RepairConfirmedStaleDaemons(r.value.install, |trace|-1);
      if repaired.None? {
        return None;
      }
      if repaired.value {
        ghost var before := trace;
        r := ReadDoctors();
        if r.Some? {
          SettledByReading(before, r.value.install, skippedRemedies);
        }
      }
    }

    /** The stale metadata part of the apply sequence: exactly the sessions that both
        listings name are closed; false where it throws. */
    method CloseStaleMetadata() returns (ok: bool, ghost first: seq<string>, ghost second: seq<string>)
      requires Sound()
      modifies `tick, `steps, `trace, `staleMetadataRemedies
      ensures old(steps) <= steps
      ensures Confirmed(trace) && old(trace) <= trace
      ensures ok ==>
                && Sound() && staleMetadataRemedies == old(staleMetadataRemedies) + InBoth(first, second)
                && forall s :: s in InBoth(first, second) ==> Did(steps, CloseSession(s))
      ensures ListMetadata(first) in trace && ListMetadata(second) in trace
      ensures !ok ==> Threw()
    {
      hide Confirmed, Settled, Accounted, NoRequiredFailure, NamedTwice, Did, Threw;
      var names := ReadMetadata();
      ghost var at := |trace| - 1;
      var again := ReadMetadata();
      first, second := names, again;
      assert trace[at] in trace && trace[at+1] in trace && names[..0] == [];
      for i := 0 to |names|
        invariant Sound() && old(trace) <= trace && old(steps) <= steps
        invariant at + 1 < |trace| && trace[at] == ListMetadata(first) && trace[at+1] == ListMetadata(second)
        invariant staleMetadataRemedies == old(staleMetadataRemedies) + InBoth(first[..i], second)
        invariant forall s :: s in InBoth(first[..i], second) ==> Did(steps, CloseSession(s))
      {
        assert trace[at] in trace && trace[at+1] in trace;
        assert first[..i+1][..i] == first[..i];
        if names[i] in again {
          NamedInBoth(trace, at, names[i]);
          ConfirmedReading(trace, CloseMetadata(names[i]));
          SettledByQuiet(trace, CloseMetadata(names[i]), skippedRemedies);
          trace := trace + [CloseMetadata(names[i])];
          assert trace[at] in trace && trace[at+1] in trace;
          ghost var before := steps;
          ok := RunStep(CloseSession(names[i]), true);
          DidStays(before, steps);
          if !ok {
            return false, first, second;
          }
          staleMetadataRemedies := staleMetadataRemedies + [names[i]];
        }
      }
      assert first[..|first|] == first && trace[at] in trace && trace[at+1] in trace;
      ok := true;
    }

    /** staleSessionMetadataNames. */
    method ReadMetadata() returns (names: seq<string>)
      requires Sound()
      modifies `tick, `trace
      ensures Sound() && trace == old(trace) + [ListMetadata(names)]
    {
      hide Confirmed, Settled, Accounted, NoRequiredFailure;
      names := m.metadata(tick);
      ConfirmedReading(trace, ListMetadata(names));
      SettledByQuiet(trace, ListMetadata(names), skippedRemedies);
      tick, trace := tick + 1, trace + [ListMetadata(names)];
    }

    /** Publication, and the reading that the first repair starts from. */
    method Published(initial: Install, ghost at: nat, skipPublish: bool) returns (r: Option<Install>, ghost reading: nat)
      requires Sound() && at < |trace| && trace[at] == ReadDoctor(initial) && NoReading(trace, at + 1, |trace|)
      modifies `tick, `steps, `trace
      ensures old(steps) <= steps
      ensures Confirmed(trace) && old(trace) <= trace
      ensures if r.Some? then
                && Sound() && reading < |trace| && trace[reading] == ReadDoctor(r.value) && NoReading(trace, reading + 1, |trace|)
                && ReadDoctor(r.value) in trace
                && (if skipPublish then r.value == initial else Did(steps, Publish))
              else Threw()
    {
      hide Confirmed, Settled, Accounted, NoRequiredFailure, Did, Threw;
      r, reading := Some(initial), at;
      if !skipPublish {
        var ok := RunStep(Publish, true);
        ghost var published := steps;
        r := None;
        if ok {
          ghost var before := trace;
          var after := ReadDoctors();
          if after.Some? {
            SettledByReading(before, after.value.install, skippedRemedies);
            DidStays(published, steps);
            r, reading := Some(after.value.install), |trace| - 1;
          }
        }
      }
    }

    /** The repairs of apply mode, up to the closing reading; false where one throws. */
    method Apply(initial: Install, ghost at: nat, skipPublish: bool) returns (ok: bool)
      requires Sound() && at < |trace| && trace[at] == ReadDoctor(initial) && NoReading(trace, at + 1, |trace|)
      modifies `tick, `steps, `trace, `skippedRemedies, `handoffRemedies, `staleMetadataRemedies
      ensures old(steps) <= steps
      ensures Confirmed(trace) && old(trace) <= trace && old(skippedRemedies) <= skippedRemedies
      ensures ok ==>
                && Sound() && (!skipPublish ==> Did(steps, Publish))
                && Did(steps, EnsurePostgres) && Did(steps, RoutePoolReadiness) && Did(steps, Reconcile)
      // the readings that the repairs start from were dealt with
      ensures ok ==> exists reading ::
                ReadDoctor(reading) in trace && (skipPublish ==> reading == initial) && Treated(trace, skippedRemedies, reading)
      ensures !ok ==> Threw()
    {
      hide *;
      var published, reading := Published(initial, at, skipPublish);
      if published.None? {
        return false;
      }
      ghost var stepsThen := steps;
      var repaired, confirmation, acts := RepairConfirmedStaleDaemons(published.value, reading);
      if repaired.None? {
        return false;
      }
      ghost var treated, skippedThen := trace, skippedRemedies;
      ghost var first, second;
      ok, first, second := CloseStaleMetadata();
      if !ok {
        return false;
      }
      ghost var r0, r1, r2;
      ok, r0, r1, r2 := ReconcileRoutes();
      TreatedGrows(treated, skippedThen, published.value, trace, skippedRemedies);
      DidStays(stepsThen, steps);
    }

    /** A step of the route part, and the readings after it. */
    method StepThenRepair(name: StepName, required: bool) returns (r: Option<Reading>)
      requires Sound()
      modifies `tick, `steps, `trace, `skippedRemedies, `handoffRemedies
      ensures old(steps) <= steps
      ensures Confirmed(trace) && old(trace) <= trace && old(skippedRemedies) <= skippedRemedies
      ensures if r.Some? then Sound() && Did(steps, name) else Threw()
    {
      hide Confirmed, Settled, Accounted, NoRequiredFailure, Did;
      r := None;
      var ok := RunStep(name, required);
      ghost var before := steps;
      if ok {
        r := ReadAndRepair();
      }
      DidStays(before, steps);
    }

    /** Reconciliation, and the steps that the readings after it advise. */
    method FollowAdvice() returns (ok: bool, ghost r0: Reading, ghost r1: Reading, ghost r2: Reading)
      requires Sound()
      modifies `tick, `steps, `trace, `skippedRemedies, `handoffRemedies
      ensures old(steps) <= steps
      ensures Confirmed(trace) && old(trace) <= trace && old(skippedRemedies) <= skippedRemedies
      ensures ok ==> Sound() && Did(steps, Reconcile)
      ensures ok ==>
                && (if MigrationRequired(r0.remoteView.nextAction) then Did(steps, ProvisionFixtures) else r1 == r0)
                && (if DisplayRecoveryRequired(r1.remoteView.nextAction) then Did(steps, RestoreDisplays) else r2 == r1)
                && (AccessRequired(r2.remoteView.nextAction) ==> Did(steps, GrantAccess))
      ensures !ok ==> Threw()
    {
      hide Confirmed, Settled, Accounted, NoRequiredFailure, MigrationRequired, DisplayRecoveryRequired, AccessRequired, Did;
      ghost var nothing := Reading(Install(false, [], []), RemoteView(false, Null));
      ok, r0, r1, r2 := false, nothing, nothing, nothing;
      var reading := StepThenRepair(Reconcile, false);
      if reading.None? {
        return;
      }
      ghost var reconciled := steps;
      r0 := reading.value;
      if MigrationRequired(reading.value.remoteView.nextAction) {
        reading := StepThenRepair(ProvisionFixtures, true);
        if reading.None? {
          return;
        }
      }
      ghost var provisioned := steps;
      r1 := reading.value;
      if DisplayRecoveryRequired(reading.value.remoteView.nextAction) {
        reading := StepThenRepair(RestoreDisplays, false);
        if reading.None? {
          return;
        }
      }
      ghost var restored := steps;
      r2 := reading.value;
      ok := true;
      if AccessRequired(reading.value.remoteView.nextAction) {
        ok := RunStep(GrantAccess, false);
      }
      DidStays(reconciled, steps);
      DidStays(provisioned, steps);
      DidStays(restored, steps);
    }

    /** The route part of apply mode. `r0`, `r1`, `r2` are the readings its three
        decisions look at; each advised step is done, and without advice the reading stays. */
    method ReconcileRoutes() returns (ok: bool, ghost r0: Reading, ghost r1: Reading, ghost r2: Reading)
      requires Sound()
      modifies `tick, `steps, `trace, `skippedRemedies, `handoffRemedies
      ensures old(steps) <= steps
      ensures Confirmed(trace) && old(trace) <= trace && old(skippedRemedies) <= skippedRemedies
      ensures ok ==> Sound() && Did(steps, EnsurePostgres) && Did(steps, RoutePoolReadiness) && Did(steps, Reconcile)
      ensures ok ==>
                && (if MigrationRequired(r0.remoteView.nextAction) then Did(steps, ProvisionFixtures) else r1 == r0)
                && (if DisplayRecoveryRequired(r1.remoteView.nextAction) then Did(steps, RestoreDisplays) else r2 == r1)
                && (AccessRequired(r2.remoteView.nextAction) ==> Did(steps, GrantAccess))
      ensures !ok ==> Threw()
    {
      hide Confirmed, Settled, Accounted, NoRequiredFailure, MigrationRequired, DisplayRecoveryRequired, AccessRequired, Did;
      ok := RunStep(EnsurePostgres, false);
      ghost var ensured := steps;
      if ok {
        ok := RunStep(RoutePoolReadiness, false);
      }
      ghost var nothing := Reading(Install(false, [], []), RemoteView(false, Null));
      r0, r1, r2 := nothing, nothing, nothing;
      if !ok || !m.routePool(tick) {
        return false, r0, r1, r2;
      }
      ghost var read := steps;
      ok, r0, r1, r2 := FollowAdvice();
      DidStays(ensured, steps);
      DidStays(read, steps);
    }

    /** The whole run. Reported success means that every prepared browser came back
        under its PID and endpoint and every idle daemon was observed gone; nothing was
        touched on the strength of one reading, and a dry run touches nothing. The test
        on failed required steps never decides: such a step has already thrown. */
    method Converge(apply: bool, skipPublish: bool) returns (success: bool, final: Option<Reading>)
      requires Sound() && trace == [] && steps == [] && skippedRemedies == [] && handoffRemedies == []
      modifies `tick, `steps, `trace, `skippedRemedies, `handoffRemedies, `staleMetadataRemedies
      ensures old(steps) <= steps
      ensures Confirmed(trace)
      ensures !apply ==> forall e :: e in trace ==> e.ReadDoctor?
      ensures success ==>
                && (forall k: nat :: k < |trace| && trace[k].Prepare? ==> SettledAt(trace, k))
                && (forall h :: h in handoffRemedies ==> Kept(h))
                && NoRequiredFailure(steps) && skippedRemedies == []
                && final.Some?
      // apply mode did its unconditional steps, and dealt with its closing reading
      ensures apply && final.Some? ==>
                && (!skipPublish ==> Did(steps, Publish)) && Did(steps, EnsurePostgres) && Did(steps, RoutePoolReadiness) && Did(steps, Reconcile)
                && exists closing ::
                     ReadDoctor(closing) in trace && Treated(trace, skippedRemedies, closing)
                     && (Candidates(closing) == [] ==> final.value.install == closing)
      ensures final.None? ==> Threw()
      ensures final.Some? ==> (success <==> final.value.install.success && final.value.remoteView.remoteControlReady && skippedRemedies == [])
    {
      hide Confirmed, Settled, Accounted, NoRequiredFailure, Did, Treated, Candidates, Repaired;
      success, final := false, None;
      var initial := ReadDoctors();
      if initial.None? {
        return;
      }
      SettledByReading(old(trace), initial.value.install, skippedRemedies);
      if apply {
        var ok := Apply(initial.value.install, |trace| - 1, skipPublish);
        if !ok {
          return;
        }
      }
      ghost var before, stepsThen := trace, steps;
      final := ReadDoctors();
      if final.None? {
        return;
      }
      SettledByReading(before, final.value.install, skippedRemedies);
      if apply {
        ghost var closing := final.value.install;
        assert trace[|trace|-1] == ReadDoctor(closing);
        var repaired, confirmation, acts := RepairConfirmedStaleDaemons(final.value.install, |trace| - 1);
        if repaired.None? {
          return false, None;
        }
        if repaired.value {
          before := trace;
          final := ReadDoctors();
          if final.None? {
            return;
          }
          SettledByReading(before, final.value.install, skippedRemedies);
          TreatedGrows(before, skippedRemedies, closing, trace, skippedRemedies);
        }
        assert ReadDoctor(closing) in trace;
        DidStays(stepsThen, steps);
      }
      RequiredStepsSucceeded(steps);
      success := final.value.install.success && final.value.remoteView.remoteControlReady && skippedRemedies == []
                 && !exists s :: s in steps && s.required && !s.success;
      if success {
        NothingSkipped(trace, handoffRemedies);
      }
    }
  }

  // ---------------------------------------------------------------- which process is signalled

  /** The reading names this process as the last stale listener of the session. */
  predicate NamesProcess(install: Install, session: string, pid: int) {
    LastPid(install.listeners, session) == Some(Value(pid))
  }

  /** The candidate that the confirming reading has for the session. */
  function ConfirmedAs(e: Event, session: string): Candidate
    requires Listed(e, session)
  {
    var cs := Candidates(e.install);
    cs[Find(cs, session)]
  }

  lemma ListenerIsNamed(install: Install, c: Candidate, pid: int)
    requires c in Candidates(install)
    ensures c.listenerPid == Value(pid) <==> NamesProcess(install, c.session, pid)
  {
    CandidatesAreExact(install);
  }

  /** Whatever is signalled is the process that the first reading names for the session.
      The confirming reading names it too exactly if its own candidate for the session
      has the same listener; the script does not ask. */
  lemma SignalledProcess(trace: Trace, k: nat)
    requires Confirmed(trace) && k < |trace| && trace[k].Kill?
    ensures exists c, i: nat, j: nat ::
              && ReadAt(trace, k, c, i, j) && NamesProcess(trace[i].install, c.session, trace[k].pid)
              && (NamesProcess(trace[j].install, c.session, trace[k].pid) <==> ConfirmedAs(trace[j], c.session).listenerPid == c.listenerPid)
  {
    hide NoReading, NamesProcess, Candidates;
    var c :| ReadTwice(trace, k, c) && TouchedFor(trace[k], c);
    var i: nat, j: nat :| ReadAt(trace, k, c, i, j);
    ListenerIsNamed(trace[i].install, c, trace[k].pid);
    var d := ConfirmedAs(trace[j], c.session);
    assert d in Candidates(trace[j].install);
    ListenerIsNamed(trace[j].install, d, trace[k].pid);
  }

  const SESSION := "a"

  function StaleAt(pid: int): Install {
    Install(false, [], [Listener(Value(true), Undefined, "a.sock", Value(pid))])
  }

  const IDLE := PrepareReply(true, false, Null, Null)

  /** A machine on which the session's daemon is replaced between the two readings. */
  function Replaced(): Machine {
    Machine(
      t => Spawn(false, true), t => if t < 2 then Some(StaleAt(100)) else Some(StaleAt(200)), t => Some(RemoteView(true, Null)),
      (t, s) => Some(IDLE), (t, s) => Some(ResumeReply(true, Null, Null)), t => true, (t, pid) => Gone, t => [])
  }

  lemma StaleCandidate(pid: int)
    requires pid > 0
    ensures Candidates(StaleAt(pid)) == [Candidate(SESSION, [], true, Value(pid))]
    ensures NamesProcess(StaleAt(pid), SESSION, pid)
    ensures forall other :: NamesProcess(StaleAt(pid), SESSION, other) ==> other == pid
  {
    var l := Listener(Value(true), Undefined, "a.sock", Value(pid));
    assert "a.sock"[|"a.sock"|-5..] == ".sock" && "a.sock"[..|"a.sock"|-5] == "a" && "a"[..|"a"|-1] == "";
    assert Stem("") == "" && Stem("a") == "a" && SessionOfPath("a.sock") == Some("a");
    assert StaleListenerOf(l) == Some(StaleListener("a", Value(pid)));
    assert [l][..|[l]|-1] == [];
    assert WithIssues([]) == [] && WithListeners([], []) == [];
    assert WithListener([], StaleListener("a", Value(pid))) == [Candidate("a", [], true, Value(pid))];
  }

  /** The condition can fail: a run that signals a process which the confirming reading
      no longer names. */
  method SignalsReplacedProcess() returns (ghost trace: Trace)
    ensures trace == [ReadDoctor(StaleAt(100)), ReadDoctor(StaleAt(200)), Prepare(SESSION, IDLE), Kill(100, true, Gone)]
    ensures Confirmed(trace)
    ensures !NamesProcess(StaleAt(200), SESSION, 100)
  {
    hide Confirmed, Candidates, NamesProcess, Settled, Accounted, NoRequiredFailure, Repaired, StaleAt, Replaced, Treated, Converger.Threw;
    StaleCandidate(100);
    StaleCandidate(200);
    ReplacedAnswers();
    var script := new Converger(Replaced());
    var first := script.ReadInstall();
    SettledByReading([], first.value, []);
    assert [] + [ReadDoctor(first.value)] == [ReadDoctor(first.value)];
    assert NoReading(script.trace, 1, 1);
    var repaired, confirmation, acts := script.RepairConfirmedStaleDaemons(first.value, 0);
    NeverThrows(script);
    OneRepair(Replaced(), Candidate(SESSION, [], true, Value(100)), Candidates(confirmation), acts, script.skippedRemedies, script.handoffRemedies);
    trace := script.trace;
  }

  lemma ReplacedAnswers()
    ensures var m := Replaced();
            && !m.spawn(0).startError && m.install(1) == Some(StaleAt(100)) && m.install(2) == Some(StaleAt(200))
  {}

  lemma NeverThrows(script: Converger)
    requires script.m == Replaced()
    ensures !script.Threw()
  {}

  lemma RepairedAlone(m: Machine, c: Candidate, confirmed: seq<Candidate>, acts: Trace, skips: seq<Skip>, remedies: seq<HandoffRemedy>)
    returns (tick: nat)
    requires Repaired(m, [c], confirmed, acts, skips, remedies) && Find(confirmed, c.session) < |confirmed|
    ensures RepairActs(m, tick, c, acts)
  {
    hide RepairActs, SkipsOf, RemediesOf;
    assert [c][..0] == [];
    var n: nat, at: nat :|
      && n <= |acts| && RepairedLast(m, c, acts[n..], skips, remedies, at)
      && Repaired(m, [c][..0], confirmed, acts[..n], Without(skips, |SkipsOf(c, acts[n..])|), Without(remedies, |RemediesOf(c, acts[n..])|));
    assert acts[..n] == [] && acts == acts[n..];
    tick := at;
  }

  lemma ActsOnReplaced(tick: nat, c: Candidate, acts: Trace)
    requires c == Candidate(SESSION, [], true, Value(100)) && RepairActs(Replaced(), tick, c, acts)
    ensures acts == [Prepare(SESSION, IDLE), Kill(100, true, Gone)]
  {
    var m, kills := Replaced(), acts[1..];
    assert acts[0] == Prepare(SESSION, IDLE);
    assert KillActs(m, tick + 1, kills, 100) && kills[0] == Kill(100, true, Gone);
    assert |kills| == 1;
    assert acts == [acts[0]] + kills;
  }

  /** What a repair of one confirmed idle candidate is on that machine. */
  lemma OneRepair(m: Machine, c: Candidate, confirmed: seq<Candidate>, acts: Trace, skips: seq<Skip>, remedies: seq<HandoffRemedy>)
    requires m == Replaced() && c == Candidate(SESSION, [], true, Value(100)) && confirmed == [Candidate(SESSION, [], true, Value(200))]
    requires Repaired(m, [c], confirmed, acts, skips, remedies)
    ensures acts == [Prepare(SESSION, IDLE), Kill(100, true, Gone)]
  {
    hide Repaired, RepairActs, Replaced;
    var tick := RepairedAlone(m, c, confirmed, acts, skips, remedies);
    ActsOnReplaced(tick, c, acts);
  }

  lemma RequiredStepsSucceeded(steps: seq<StepRecord>)
    ensures NoRequiredFailure(steps) <==> !exists s :: s in steps && s.required && !s.success
  {}

  lemma NothingSkipped(trace: Trace, handoffs: seq<HandoffRemedy>)
    requires Settled(trace, []) && Accounted(handoffs, [])
    ensures forall k: nat :: k < |trace| && trace[k].Prepare? ==> SettledAt(trace, k)
    ensures forall h :: h in handoffs ==> Kept(h)
  {}
}
