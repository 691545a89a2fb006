/** What the publisher does to, and observes of, the machine it runs on.

    The machine is an oracle: each answer may depend on everything done and
    observed before, so one `World` is one arbitrary adaptive environment. */
module HandoffWorld {
  import opened JsValues
  import opened HandoffIdentity

  datatype Command = HandoffPrepare | HandoffResume | ServiceBrowsers | Close

  datatype ReplyData = ReplyData(
    prepared: bool,
    browserPid: Js<int>,
    preparedBrowserPid: Js<int>,
    staleBrowserPidDropped: bool,
    cdpUrl: Js<string>,
    runtimeProfile: Js<string>,
    host: Js<string>,
    handoffPath: Js<string>,
    targetsReattached: Js<int>,
    retryRecordRemoved: bool)

  /** One finished command: exit status, the JSON `success` flag and its payload. */
  datatype Reply = Reply(status: Js<int>, success: bool, data: ReplyData, browsers: seq<BrowserRecord>, error: string)

  predicate Accepted(r: Reply) {
    r.status == Value(0) && r.success
  }

  datatype RecordFields = RecordFields(
    schemaVersion: Js<int>, schema_version: Js<int>,
    sessionName: Js<string>, session_name: Js<string>,
    browserPid: Js<int>, browser_pid: Js<int>,
    cdpUrl: Js<string>, cdp_url: Js<string>,
    runtimeProfile: Js<string>, runtime_profile: Js<string>,
    host: Js<string>)

  /** A handoff record file: absent, not JSON, or a JSON object. */
  datatype RecordFile = Missing | Unparsable | Parsed(fields: RecordFields)

  datatype Signal = SIGTERM | SIGKILL

  datatype Act =
    | Run(bin: string, command: Command, env: Js<DisplayEnvironment>, reply: Reply)
    | ReadPidFile(pid: Js<int>)
    | CaptureDisplay(daemonPid: int, captured: Option<DisplayEnvironment>)
    | Probe(probedPid: int, live: bool)
    | ProbeRaw(rawPid: int, present: bool)
    | SendSignal(target: int, signal: Signal, delivered: bool)
    | ProbeEndpoint(url: string, reachable: bool)
    | ReadRecord(path: string, file: RecordFile)
    | RemoveRecord(removed: string)
    | Sleep(ms: nat)

  /** An act together with the daemon session on whose behalf it was performed. */
  datatype Event = Event(session: string, act: Act)

  type History = seq<Event>

  datatype World = World(
    run: (History, string, string, Command, Js<DisplayEnvironment>) -> Reply,
    pidFile: (History, string) -> Js<int>,
    display: (History, int) -> Option<DisplayEnvironment>,
    executable: (History, int) -> Option<string>,
    live: (History, int) -> bool,
    present: (History, int) -> bool,
    deliver: (History, int, Signal) -> bool,
    reachable: (History, string) -> bool,
    record: (History, string) -> RecordFile,
    elapsed: (History) -> nat)

  predicate Ran(e: Event, session: string, command: Command) {
    e.session == session && e.act.Run? && e.act.command == command
  }

  /** Acts that neither give a browser up nor take it back. */
  predicate Neutral(a: Act) {
    a.Run? ==> !a.command.HandoffPrepare? && !a.command.HandoffResume?
  }

  ghost predicate For(done: History, session: string) {
    forall e :: e in done ==> e.session == session
  }

  /** Sessions whose daemon has given its browser up (an accepted prepare that
      reported one) and has not taken it back since (an accepted resume). */
  ghost function Relinquished(h: History): set<string> {
    if h == [] then {}
    else
      var prior := Relinquished(h[..|h|-1]);
      var e := h[|h|-1];
      if e.act.Run? && e.act.command.HandoffPrepare? && Accepted(e.act.reply) && e.act.reply.data.prepared then
        prior + {e.session}
      else if e.act.Run? && e.act.command.HandoffResume? && Accepted(e.act.reply) then
        prior - {e.session}
      else
        prior
  }

  lemma RelinquishedStep(h: History, e: Event)
    ensures Neutral(e.act) ==> Relinquished(h + [e]) == Relinquished(h)
    ensures Ran(e, e.session, HandoffPrepare) ==>
              Relinquished(h + [e]) ==
              if Accepted(e.act.reply) && e.act.reply.data.prepared then Relinquished(h) + {e.session} else Relinquished(h)
    ensures Ran(e, e.session, HandoffResume) ==>
              Relinquished(h + [e]) ==
              if Accepted(e.act.reply) then Relinquished(h) - {e.session} else Relinquished(h)
  {
    assert (h + [e])[..|h + [e]|-1] == h;
  }

  /** How many commands of a kind were issued for a session. */
  ghost function Count(h: History, session: string, command: Command): nat {
    if h == [] then 0
    else Count(h[..|h|-1], session, command) + if Ran(h[|h|-1], session, command) then 1 else 0
  }

  lemma CountStep(h: History, e: Event, session: string, command: Command)
    ensures Count(h + [e], session, command) == Count(h, session, command) + if Ran(e, session, command) then 1 else 0
  {
    assert (h + [e])[..|h + [e]|-1] == h;
  }

  lemma CountNone(session: string)
    ensures forall command :: Count([], session, command) == 0
  {}

  lemma {:induction false} CountAppend(a: History, b: History, session: string, command: Command)
    ensures Count(a + b, session, command) == Count(a, session, command) + Count(b, session, command)
    decreases |b|
  {
    if b == [] {
      assert a + b == a;
    } else {
      assert (a + b)[..|a + b|-1] == a + b[..|b|-1];
      CountAppend(a, b[..|b|-1], session, command);
    }
  }

  lemma {:induction false} CountZero(h: History, session: string, command: Command)
    ensures Count(h, session, command) == 0 <==> forall e :: e in h ==> !Ran(e, session, command)
  {
    if h != [] {
      CountZero(h[..|h|-1], session, command);
      assert h == h[..|h|-1] + [h[|h|-1]];
    }
  }

  /** How long the clock advances while `done` happens after `h`. */
  ghost function Duration(w: World, h: History, done: History): nat {
    if done == [] then 0
    else
      var prior, act := done[..|done|-1], done[|done|-1].act;
      Duration(w, h, prior) + w.elapsed(h + prior) + if act.Sleep? then act.ms else 0
  }

  lemma DurationStep(w: World, h: History, done: History, e: Event)
    ensures Duration(w, h, done + [e]) == Duration(w, h, done) + w.elapsed(h + done) + if e.act.Sleep? then e.act.ms else 0
  {
    assert (done + [e])[..|done + [e]|-1] == done;
  }

  lemma DurationOfNothing(w: World, h: History)
    ensures Duration(w, h, []) == 0
  {}

  lemma DurationOfProbe(w: World, h: History, done: History, e: Event)
    ensures Duration(w, h, done + [e]) == Duration(w, h, done) + Duration(w, h + done, [e])
  {
    DurationStep(w, h, done, e);
    DurationStep(w, h + done, [], e);
    assert [] + [e] == [e] && (h + done) + [] == h + done;
  }

  lemma ProbeTakes(w: World, h: History, done: History, probed: History)
    requires |probed| <= 1 && forall e :: e in probed ==> !e.act.Sleep?
    ensures Duration(w, h, done + probed) == Duration(w, h, done) + if probed == [] then 0 else w.elapsed(h + done)
  {
    if probed == [] {
      assert done + probed == done;
    } else {
      DurationStep(w, h, done, probed[0]);
      assert probed == [probed[0]] && probed[0] in probed;
    }
  }

  lemma {:induction false} DurationAppend(w: World, h: History, a: History, b: History)
    ensures Duration(w, h, a + b) == Duration(w, h, a) + Duration(w, h + a, b)
    decreases |b|
  {
    hide Duration;
    if b == [] {
      DurationOfNothing(w, h + a);
      assert a + b == a;
    } else {
      var prior, e := b[..|b|-1], b[|b|-1];
      DurationAppend(w, h, a, prior);
      DurationStep(w, h, a + prior, e);
      DurationStep(w, h + a, prior, e);
      assert b == prior + [e] && a + b == (a + prior) + [e] && h + (a + prior) == (h + a) + prior;
    }
  }

  /** Acts that may change whether `session` has a live daemon with its browser. */
  predicate Disturbs(e: Event, session: string) {
    && e.session == session
    && (e.act.SendSignal? || (e.act.Run? && !e.act.command.ServiceBrowsers?))
  }

  ghost predicate Undisturbed(tail: History, session: string) {
    forall e :: e in tail ==> !Disturbs(e, session)
  }

  /** Every observation of the session at `h` reports one live daemon and one
      matching active browser. */
  predicate HealthyAt(w: World, h: History, bin: string, p: PreparedHandoff, daemon: nat, b: BrowserRecord) {
    && w.pidFile(h, p.sessionName) == Value(daemon)
    && w.live(h, daemon)
    && (var reply := w.run(h, bin, p.sessionName, ServiceBrowsers, p.displayEnvironment);
        Accepted(reply) && Select(reply.browsers, p.sessionName, Some(p)) == Found(b))
    && Active(b, p, EffectivePid(b, p).Value? && w.live(h, EffectivePid(b, p).v))
    && (Truthy(p.cdpUrl) ==> w.reachable(h, p.cdpUrl.v))
  }

  ghost predicate DurableWith(w: World, h: History, bin: string, p: PreparedHandoff, daemon: nat, b: BrowserRecord) {
    && daemon > 0 && Matches(b, p) && !b.pid.Undefined?
    && forall tail: History {:trigger h + tail} :: Undisturbed(tail, p.sessionName) ==> HealthyAt(w, h + tail, bin, p, daemon, b)
  }

  /** From `h` on, and until somebody disturbs the session, it stays healthy. */
  ghost predicate Durable(w: World, h: History, bin: string, p: PreparedHandoff) {
    exists daemon: nat, b: BrowserRecord :: DurableWith(w, h, bin, p, daemon, b)
  }

  lemma DurableLater(w: World, h: History, done: History, bin: string, p: PreparedHandoff)
    requires Durable(w, h, bin, p) && Undisturbed(done, p.sessionName)
    ensures Durable(w, h + done, bin, p)
  {
    var daemon: nat, b: BrowserRecord :| DurableWith(w, h, bin, p, daemon, b);
    forall tail: History | Undisturbed(tail, p.sessionName)
      ensures HealthyAt(w, (h + done) + tail, bin, p, daemon, b)
    {
      assert (h + done) + tail == h + (done + tail);
    }
    assert DurableWith(w, h + done, bin, p, daemon, b);
  }

  /** A world in which an accepted resume leaves a live daemon with a matching
      active browser. */
  ghost predicate ResumeRestores(w: World, bin: string, p: PreparedHandoff) {
    forall h: History, reply: Reply :: Accepted(reply) ==>
      Durable(w, h + [Event(p.sessionName, Run(bin, HandoffResume, p.displayEnvironment, reply))], bin, p)
  }
}
