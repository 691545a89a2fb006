/** Two-phase repair of stale daemons during local convergence
    (scripts/converge-local-runtime.js). */
module Convergence {
  import opened JsValues
  import HandoffReport

  const STALE := "active_runtime_stale_executable"
  const PROBES: nat := 50

  // ---------------------------------------------------------------- readings

  /** argv elements that are not strings are None. */
  datatype Issue = Issue(code: string, session: Js<string>, argv: seq<Option<string>>)

  datatype Listener = Listener(deletedExecutable: Js<bool>, matchesCurrentExecutable: Js<bool>, socketPath: string, pid: Js<int>)

  datatype Install = Install(success: bool, issues: seq<Issue>, listeners: seq<Listener>)

  datatype RemoteView = RemoteView(remoteControlReady: bool, nextAction: Js<string>)

  datatype Reading = Reading(install: Install, remoteView: RemoteView)

  datatype Candidate = Candidate(session: string, argv: seq<Option<string>>, listenerAuthority: bool, listenerPid: Js<int>)

  /** A stale listener: the session its socket path names, and its process. */
  datatype StaleListener = StaleListener(session: string, pid: Js<int>)

  predicate IsStaleRemedy(i: Issue) {
    i.code == STALE && Truthy(i.session)
  }

  function RemedyOf(i: Issue): Candidate
    requires IsStaleRemedy(i)
  {
    Candidate(i.session.v, i.argv, false, Undefined)
  }

  /** The last component of a socket path, without its extension. */
  function Stem(path: string): string {
    if path == "" || path[|path|-1] == '/' || path[|path|-1] == '\\' then ""
    else Stem(path[..|path|-1]) + [path[|path|-1]]
  }

  function SessionOfPath(path: string): Option<string> {
    if |path| >= 5 && (path[|path|-5..] == ".sock" || path[|path|-5..] == ".port") && Stem(path[..|path|-5]) != ""
    then Some(Stem(path[..|path|-5])) else None
  }

  function StaleListenerOf(l: Listener): Option<StaleListener> {
    var session := SessionOfPath(l.socketPath);
    if (l.deletedExecutable == Value(true) || l.matchesCurrentExecutable == Value(false))
       && session.Some? && HandoffReport.ValidSessionName(session.value)
    then Some(StaleListener(session.value, if HandoffReport.Positive(l.pid) then l.pid else Null)) else None
  }

  // ---------------------------------------------------------------- candidates

  function Find(cs: seq<Candidate>, session: string): (i: nat)
    ensures i <= |cs| && (i < |cs| ==> cs[i].session == session)
    ensures forall k :: 0 <= k < i ==> cs[k].session != session
  {
    if cs == [] || cs[0].session == session then 0 else 1 + Find(cs[1..], session)
  }

  /** Map.set: a new key goes last, an old one keeps its place. */
  function Upsert(cs: seq<Candidate>, c: Candidate): seq<Candidate> {
    var i := Find(cs, c.session);
    if i < |cs| then cs[i := c] else cs + [c]
  }

  function WithListener(cs: seq<Candidate>, l: StaleListener): seq<Candidate> {
    var i := Find(cs, l.session);
    Upsert(cs, Candidate(l.session, if i < |cs| then cs[i].argv else [], true, l.pid))
  }

  function WithIssues(issues: seq<Issue>): seq<Candidate> {
    if issues == [] then []
    else
      var prior, last := WithIssues(issues[..|issues|-1]), issues[|issues|-1];
      if IsStaleRemedy(last) then Upsert(prior, RemedyOf(last)) else prior
  }

  function WithListeners(cs: seq<Candidate>, listeners: seq<Listener>): seq<Candidate> {
    if listeners == [] then cs
    else
      var prior, last := WithListeners(cs, listeners[..|listeners|-1]), StaleListenerOf(listeners[|listeners|-1]);
      if last.Some? then WithListener(prior, last.value) else prior
  }

  function Candidates(install: Install): seq<Candidate> {
    WithListeners(WithIssues(install.issues), install.listeners)
  }

  /** staleDaemonCandidates. */
  method StaleDaemonCandidates(install: Install) returns (candidates: seq<Candidate>)
    ensures candidates == Candidates(install)
  {
    hide Upsert, WithListener, StaleListenerOf;
    candidates := [];
    for i := 0 to |install.issues|
      invariant candidates == WithIssues(install.issues[..i])
    {
      assert install.issues[..i+1][..i] == install.issues[..i];
      if IsStaleRemedy(install.issues[i]) {
        candidates := Upsert(candidates, RemedyOf(install.issues[i]));
      }
    }
    assert install.issues[..|install.issues|] == install.issues;
    for i := 0 to |install.listeners|
      invariant candidates == WithListeners(WithIssues(install.issues), install.listeners[..i])
    {
      assert install.listeners[..i+1][..i] == install.listeners[..i];
      var listener := StaleListenerOf(install.listeners[i]);
      if listener.Some? {
        candidates := WithListener(candidates, listener.value);
      }
    }
    assert install.listeners[..|install.listeners|] == install.listeners;
  }

  /** The argv of the last remedy for a session. */
  function LastArgv(issues: seq<Issue>, session: string): Option<seq<Option<string>>> {
    if issues == [] then None
    else if IsStaleRemedy(issues[|issues|-1]) && issues[|issues|-1].session.v == session then Some(issues[|issues|-1].argv)
    else LastArgv(issues[..|issues|-1], session)
  }

  /** The process of the last stale listener of a session. */
  function LastPid(listeners: seq<Listener>, session: string): Option<Js<int>> {
    if listeners == [] then None
    else
      var last := StaleListenerOf(listeners[|listeners|-1]);
      if last.Some? && last.value.session == session then Some(last.value.pid)
      else LastPid(listeners[..|listeners|-1], session)
  }

  ghost predicate Unique(cs: seq<Candidate>) {
    forall i, j :: 0 <= i < j < |cs| ==> cs[i].session != cs[j].session
  }

  /** What a candidate must look like, session by session. */
  function Expected(issues: seq<Issue>, listeners: seq<Listener>, session: string): Option<Candidate> {
    var argv, pid := LastArgv(issues, session), LastPid(listeners, session);
    if pid.Some? then Some(Candidate(session, if argv.Some? then argv.value else [], true, pid.value))
    else if argv.Some? then Some(Candidate(session, argv.value, false, Undefined))
    else None
  }

  ghost predicate Lists(cs: seq<Candidate>, issues: seq<Issue>, listeners: seq<Listener>) {
    && Unique(cs)
    && (forall c :: c in cs ==> Expected(issues, listeners, c.session) == Some(c))
    && (forall s :: Expected(issues, listeners, s).Some? ==> Expected(issues, listeners, s).value in cs)
  }

  lemma UpsertLists(cs: seq<Candidate>, c: Candidate)
    requires Unique(cs)
    ensures Unique(Upsert(cs, c)) && c in Upsert(cs, c)
    ensures forall d :: d in Upsert(cs, c) <==> d == c || (d in cs && d.session != c.session)
  {
    var i := Find(cs, c.session);
    var r := Upsert(cs, c);
    assert r[i] == c;
    forall d | d in cs && d.session != c.session ensures d in r {
      var k :| 0 <= k < |cs| && cs[k] == d;
      assert r[k] == d;
    }
    forall d | d in r && d != c ensures d in cs && d.session != c.session {
      var k :| 0 <= k < |r| && r[k] == d;
      assert k != i && cs[k] == d;
    }
  }

  lemma {:induction false} IssuesList(issues: seq<Issue>)
    ensures Lists(WithIssues(issues), issues, [])
  {
    if issues != [] {
      var prior, last := issues[..|issues|-1], issues[|issues|-1];
      IssuesList(prior);
      if IsStaleRemedy(last) {
        UpsertLists(WithIssues(prior), RemedyOf(last));
      }
      forall s ensures
        Expected(issues, [], s) == if IsStaleRemedy(last) && last.session.v == s then Some(RemedyOf(last)) else Expected(prior, [], s)
      {}
      forall s | Expected(issues, [], s).Some? ensures Expected(issues, [], s).value in WithIssues(issues) {
        assert (IsStaleRemedy(last) && last.session.v == s) || Expected(prior, [], s).value in WithIssues(prior);
      }
    }
  }

  lemma {:induction false} ListenersList(issues: seq<Issue>, listeners: seq<Listener>)
    ensures Lists(WithListeners(WithIssues(issues), listeners), issues, listeners)
  {
    hide StaleListenerOf, LastArgv;
    if listeners == [] {
      IssuesList(issues);
    } else {
      var prior, last := listeners[..|listeners|-1], StaleListenerOf(listeners[|listeners|-1]);
      ListenersList(issues, prior);
      if last.Some? {
        var cs := WithListeners(WithIssues(issues), prior);
        ListenerStep(cs, issues, prior, last.value);
      }
      forall s ensures
        Expected(issues, listeners, s) ==
        if last.Some? && last.value.session == s then Some(Merged(issues, last.value)) else Expected(issues, prior, s)
      {}
      forall s | Expected(issues, listeners, s).Some?
        ensures Expected(issues, listeners, s).value in WithListeners(WithIssues(issues), listeners)
      {
        assert (last.Some? && last.value.session == s) || Expected(issues, prior, s).value in WithListeners(WithIssues(issues), prior);
      }
    }
  }

  /** The candidate of a stale listener. */
  function Merged(issues: seq<Issue>, l: StaleListener): Candidate {
    var argv := LastArgv(issues, l.session);
    Candidate(l.session, if argv.Some? then argv.value else [], true, l.pid)
  }

  lemma ListenerStep(cs: seq<Candidate>, issues: seq<Issue>, prior: seq<Listener>, l: StaleListener)
    requires Lists(cs, issues, prior)
    ensures Unique(WithListener(cs, l))
    ensures forall d :: d in WithListener(cs, l) <==> d == Merged(issues, l) || (d in cs && d.session != l.session)
  {
    var i := Find(cs, l.session);
    var argv := LastArgv(issues, l.session);
    if i < |cs| {
      assert cs[i] in cs;
    } else {
      assert Expected(issues, prior, l.session).None? by {
        if Expected(issues, prior, l.session).Some? {
          var c := Expected(issues, prior, l.session).value;
          assert c in cs;
          var k :| 0 <= k < |cs| && cs[k] == c;
        }
      }
    }
    UpsertLists(cs, Candidate(l.session, if i < |cs| then cs[i].argv else [], true, l.pid));
  }

  /** One candidate per stale session, with the last listener's process and the last
      remedy's command, however often and in whatever order the doctor lists them. */
  lemma CandidatesAreExact(install: Install)
    ensures Lists(Candidates(install), install.issues, install.listeners)
  {
    ListenersList(install.issues, install.listeners);
  }
}
