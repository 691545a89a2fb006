/** Which service browser a prepared handoff refers to
    (scripts/lib/runtime-handoff-browser-selection.js). */
module HandoffIdentity {
  import opened JsValues

  datatype DisplayEnvironment = DisplayEnvironment(display: Option<string>, osClickIsolatedDisplay: Option<string>)

  datatype BrowserRecord = BrowserRecord(
    id: Js<string>,
    pid: Js<int>,
    cdpEndpoint: Js<string>,
    health: Js<string>,
    host: Js<string>,
    profileId: Js<string>,
    validTabs: Js<nat>)

  datatype PreparedHandoff = PreparedHandoff(
    sessionName: string,
    daemonPid: Js<int>,
    browserPid: Js<int>,
    cdpUrl: Js<string>,
    runtimeProfile: Js<string>,
    host: Js<string>,
    handoffPath: Js<string>,
    displayEnvironment: Js<DisplayEnvironment>,
    strandedDaemonTermination: Js<string>)

  /** Every producer of a prepared handoff stores its identity through `?? null`. */
  predicate Normalised(p: PreparedHandoff) {
    !p.browserPid.Undefined? && !p.cdpUrl.Undefined?
  }

  datatype Selection = Found(browser: BrowserRecord) | Nothing | Rejected(error: string)

  predicate Matches(b: BrowserRecord, expected: PreparedHandoff) {
    && (|| !expected.browserPid.Value?
        || b.pid == expected.browserPid
        || (!b.pid.Value? && Truthy(expected.cdpUrl)))
    && (Truthy(expected.cdpUrl) ==> b.cdpEndpoint == expected.cdpUrl)
  }

  function SessionId(session: string): Js<string> {
    Value("session:" + session)
  }

  function ClaimedBy(browsers: seq<BrowserRecord>, session: string): (r: seq<BrowserRecord>)
    ensures forall b :: b in r <==> b in browsers && b.id == SessionId(session)
  {
    if browsers == [] then []
    else (if browsers[0].id == SessionId(session) then [browsers[0]] else []) + ClaimedBy(browsers[1..], session)
  }

  function MatchingAliases(browsers: seq<BrowserRecord>, expected: PreparedHandoff): (r: seq<BrowserRecord>)
    ensures forall b :: b in r <==> b in browsers && Matches(b, expected)
  {
    if browsers == [] then []
    else (if Matches(browsers[0], expected) then [browsers[0]] else []) + MatchingAliases(browsers[1..], expected)
  }

  function Select(browsers: seq<BrowserRecord>, session: string, expected: Option<PreparedHandoff>): Selection {
    var claimed := ClaimedBy(browsers, session);
    if |claimed| > 1 then
      Rejected("Multiple service browsers claim daemon session '" + session + "'")
    else if |claimed| == 1 then
      if expected.Some? && !Matches(claimed[0], expected.value) then
        Rejected("The service browser for '" + session + "' does not match the prepared handoff identity")
      else
        Found(claimed[0])
    else if expected.None? then
      Nothing
    else
      var aliases := MatchingAliases(browsers, expected.value);
      if |aliases| > 1 then
        Rejected("Multiple service browsers match the prepared handoff identity for '" + session + "'")
      else if |aliases| == 1 then
        Found(aliases[0])
      else
        Nothing
  }

  /** A selected browser is unambiguous: it is the only claim on the session, or
      nobody claims the session and it is the only record of that identity. */
  lemma SelectionIsUnambiguous(browsers: seq<BrowserRecord>, session: string, expected: Option<PreparedHandoff>, b: BrowserRecord)
    requires Select(browsers, session, expected) == Found(b)
    ensures b in browsers
    ensures expected.Some? ==> Matches(b, expected.value)
    ensures b.id == SessionId(session) ==>
              forall c :: c in browsers && c.id == SessionId(session) ==> c == b
    ensures b.id != SessionId(session) ==>
              && expected.Some?
              && (forall c :: c in browsers && Matches(c, expected.value) ==> c == b)
              && (forall c :: c in browsers ==> c.id != SessionId(session))
  {
    var claimed := ClaimedBy(browsers, session);
    if |claimed| == 1 {
      assert claimed[0] in claimed;
    } else {
      assert forall c :: c in browsers && c.id == SessionId(session) ==> c in claimed;
      var aliases := MatchingAliases(browsers, expected.value);
      assert aliases[0] in aliases;
    }
  }

  /** Selection fails exactly on a duplicate claim, a claimed record of another
      identity, or several unclaimed records of the prepared identity. */
  lemma SelectionFailsExactly(browsers: seq<BrowserRecord>, session: string, expected: Option<PreparedHandoff>)
    ensures Select(browsers, session, expected).Rejected? <==>
            || |ClaimedBy(browsers, session)| > 1
            || (expected.Some? && exists b :: b in browsers && b.id == SessionId(session) && !Matches(b, expected.value))
            || (expected.Some? && |MatchingAliases(browsers, expected.value)| > 1
                && forall b :: b in browsers ==> b.id != SessionId(session))
  {
    var claimed := ClaimedBy(browsers, session);
    if |claimed| == 1 {
      assert claimed[0] in claimed;
    } else if |claimed| == 0 {
      assert forall b :: b in browsers && b.id == SessionId(session) ==> b in claimed;
    }
  }

  /** The two identity throws of the recovery branch
      (scripts/publish-local-dashboard-runtime.js:821-836) once selection has
      accepted the browser: the CDP one cannot fire, and the PID one fires only
      for a record that has no pid key at all. */
  lemma RecoveryThrowsExactly(b: BrowserRecord, p: PreparedHandoff)
    requires Normalised(p) && Matches(b, p)
    ensures !(Truthy(p.cdpUrl) && b.cdpEndpoint != p.cdpUrl)
    ensures (p.browserPid != Null && b.pid != Null && b.pid != p.browserPid)
            <==> (p.browserPid.Value? && b.pid == Undefined)
  {}

  predicate Closed(health: Js<string>) {
    health == Value("closed") || health == Value("not_started")
  }

  /** The PID whose liveness decides activity, when it is not an attached endpoint. */
  function EffectivePid(b: BrowserRecord, expected: PreparedHandoff): Js<int> {
    OrElse(b.pid, OrNull(expected.browserPid))
  }

  predicate AttachedEndpoint(b: BrowserRecord, expected: PreparedHandoff) {
    && b.host == Value("attached_existing")
    && Truthy(b.cdpEndpoint)
    && (Truthy(expected.cdpUrl) ==> b.cdpEndpoint == expected.cdpUrl)
  }

  /** Whether activity is decided by probing a process rather than by the record. */
  predicate DecidedByProcess(b: BrowserRecord, expected: PreparedHandoff) {
    && !Closed(b.health)
    && !AttachedEndpoint(b, expected)
    && EffectivePid(b, expected).Value?
    && EffectivePid(b, expected).v > 0
  }

  /** isRuntimeHandoffBrowserActive, given the answer of the process probe. */
  predicate Active(b: BrowserRecord, expected: PreparedHandoff, live: bool) {
    && !Closed(b.health)
    && (|| AttachedEndpoint(b, expected)
        || (if DecidedByProcess(b, expected) then live else Truthy(b.cdpEndpoint)))
  }
}
