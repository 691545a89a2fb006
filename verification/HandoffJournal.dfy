/** What survives a crash: the journal's test for a completed resume, the handoffs
    found again from their record files, and their merge with the journal
    (scripts/lib/local-dashboard-publisher-orchestration.js:593-599, 675-691, 1087-1122). */
module HandoffJournal {
  import opened JsValues
  import opened HandoffIdentity
  import opened HandoffWorld
  import opened HandoffReport
  import opened PrepareReport
  import opened ResumeReport

  /** handoffsAlreadyResumed (scripts/lib/local-dashboard-publisher-orchestration.js:1112-1122):
      the journal's test for skipping the resume phase. The map keeps the last
      entry of each session. */
  function EvidenceFor(qs: seq<ResumedHandoff>, session: string): (r: Option<ResumedHandoff>)
    ensures r.Some? ==> r.value in qs && r.value.sessionName == session
    ensures r.None? ==> forall q :: q in qs ==> q.sessionName != session
  {
    if qs == [] then None
    else if qs[|qs|-1].sessionName == session then Some(qs[|qs|-1])
    else EvidenceFor(qs[..|qs|-1], session)
  }

  predicate HandoffsAlreadyResumed(ps: seq<PreparedHandoff>, qs: seq<ResumedHandoff>) {
    forall p :: p in ps ==>
      var q := EvidenceFor(qs, p.sessionName);
      && q.Some?
      && (!p.browserPid.Value? || q.value.browserPid == p.browserPid)
      && (!Truthy(p.cdpUrl) || q.value.cdpUrl == p.cdpUrl)
  }

  /** A completed resume pass satisfies the journal's own test, so a later recovery
      of the same transaction does not resume again. */
  lemma CompletedPassIsRecognised(ps: seq<PreparedHandoff>, qs: seq<ResumedHandoff>)
    requires |qs| == |ps| && Distinct(ps) && forall i :: 0 <= i < |ps| ==> Conserves(ps[i], qs[i])
    ensures HandoffsAlreadyResumed(ps, qs)
  {
    forall p | p in ps ensures
      var q := EvidenceFor(qs, p.sessionName);
      && q.Some? && (!p.browserPid.Value? || q.value.browserPid == p.browserPid) && (!Truthy(p.cdpUrl) || q.value.cdpUrl == p.cdpUrl)
    {
      var i :| 0 <= i < |ps| && ps[i] == p;
      assert qs[i].sessionName == p.sessionName && qs[i] in qs;
      var q := EvidenceFor(qs, p.sessionName).value;
      var j :| 0 <= j < |qs| && qs[j] == q;
      assert ps[j].sessionName == p.sessionName;
    }
  }

  /** Prepare and resume put together. */
  lemma CompletedHandOff(sessions: seq<string>, handed: seq<bool>, h: History, done: History, bin: string, ps: seq<PreparedHandoff>, qs: seq<ResumedHandoff>)
    requires |handed| == |sessions| && AllDifferent(sessions) && Names(ps) == Pick(sessions, handed, true)
    requires |qs| == |ps| && forall i :: 0 <= i < |ps| ==> Conserves(ps[i], qs[i])
    requires Distinct(ps) ==> forall i :: 0 <= i < |ps| && Fresh(qs[i]) ==> ResumedAndLeftAlone(done, bin, ps[i])
    ensures HandoffsAlreadyResumed(ps, qs)
    ensures forall i :: 0 <= i < |qs| && Fresh(qs[i]) ==> qs[i].sessionName !in Relinquished(h + done)
  {
    hide ResumedAndLeftAlone;
    PickedAreDifferent(sessions, handed, true);
    NamesDistinct(ps);
    CompletedPassIsRecognised(ps, qs);
    forall i | 0 <= i < |qs| && Fresh(qs[i]) ensures qs[i].sessionName !in Relinquished(h + done) {
      ResumeTakesBack(h, done, bin, ps[i]);
    }
  }

  // Record files

  function RecordPath(session: string): string {
    session + ".handoff.json"
  }

  /** The handoff a record file stands for, if it stands for this session. */
  function FromRecord(session: string, f: RecordFields, daemonPid: Js<int>): Option<PreparedHandoff> {
    var id := IdentityOf(f);
    if SupportedSchema(id.schemaVersion) && id.sessionName == Value(session) then
      Some(PreparedHandoff(session, daemonPid, id.browserPid, id.cdpUrl, id.runtimeProfile, OrNull(f.host),
                           Value(RecordPath(session)), Undefined, Undefined))
    else None
  }

  /** Whether the record names the identity of `p`, field by field in either spelling. */
  predicate Records(f: RecordFields, p: PreparedHandoff) {
    && SupportedSchema(OrElse(f.schemaVersion, f.schema_version))
    && OrElse(f.sessionName, f.session_name) == Value(p.sessionName)
    && OrNull(OrElse(f.browserPid, f.browser_pid)) == p.browserPid
    && OrNull(OrElse(f.cdpUrl, f.cdp_url)) == p.cdpUrl
    && OrNull(OrElse(f.runtimeProfile, f.runtime_profile)) == p.runtimeProfile
    && OrNull(f.host) == p.host
  }

  /** Rediscovery after a crash gives back the prepared identity, under which the
      service browser matches exactly as before and the record may be removed. What
      it cannot give back is the display environment. */
  lemma RediscoveryKeepsIdentity(f: RecordFields, p: PreparedHandoff, daemonPid: Js<int>, b: BrowserRecord)
    requires Normalised(p) && Records(f, p)
    ensures var q := FromRecord(p.sessionName, f, daemonPid);
            && q.Some? && Normalised(q.value) && Records(f, q.value) && SameRecord(IdentityOf(f), q.value)
            && (Matches(b, q.value) <==> Matches(b, p))
            && (forall r: ResumedHandoff :: Conserves(q.value, r) <==> Conserves(p, r))
            && q.value.displayEnvironment.Undefined?
  {}

  /** A session whose record, as read, is absent or stands for it. */
  ghost predicate Readable(session: string, file: RecordFile, pid: Js<int>, done: History) {
    && ValidSessionName(session) && !file.Unparsable?
    && Event(session, ReadRecord(RecordPath(session), file)) in done
    && (file.Parsed? ==> FromRecord(session, file.fields, pid).Some? && Event(session, ReadPidFile(pid)) in done)
  }

  /** The refusal of the scan, on the session it has come to. */
  ghost predicate Unreadable(session: string, err: HandoffError, done: History) {
    if err.InvalidSessionName? then err.session == session && !ValidSessionName(session)
    else
      && ValidSessionName(session) && |done| > 0 && done[|done|-1].session == session
      && done[|done|-1].act.ReadRecord? && done[|done|-1].act.path == RecordPath(session)
      && match done[|done|-1].act.file
         case Missing => false
         case Unparsable => err == RecordInvalid(session)
         case Parsed(f) => err == RecordIdentityMismatch(session) && FromRecord(session, f, Undefined).None?
  }

  lemma ReadableLater(session: string, file: RecordFile, pid: Js<int>, done: History, more: History)
    requires Readable(session, file, pid, done)
    ensures Readable(session, file, pid, done + more)
  {
    hide ValidSessionName, FromRecord;
    assert forall e :: e in done ==> e in done + more;
  }

  /** What the scan of `sessions` found: one entry per session that has a record. */
  ghost function HandoffsFound(sessions: seq<string>, files: seq<RecordFile>, pids: seq<Js<int>>): seq<PreparedHandoff>
    requires |sessions| == |files| == |pids|
  {
    if sessions == [] then []
    else
      var last := |sessions| - 1;
      var found := if files[last].Parsed? then FromRecord(sessions[last], files[last].fields, pids[last]) else None;
      HandoffsFound(sessions[..last], files[..last], pids[..last]) + if found.Some? then [found.value] else []
  }

  lemma FoundNothing()
    ensures HandoffsFound([], [], []) == []
  {}

  lemma FromRecordIgnoresPid(session: string, f: RecordFields)
    ensures forall a, b :: FromRecord(session, f, a).Some? <==> FromRecord(session, f, b).Some?
  {}

  lemma FoundStep(sessions: seq<string>, files: seq<RecordFile>, pids: seq<Js<int>>, session: string, file: RecordFile, pid: Js<int>)
    requires |sessions| == |files| == |pids|
    ensures HandoffsFound(sessions + [session], files + [file], pids + [pid]) ==
              HandoffsFound(sessions, files, pids)
              + (if file.Parsed? && FromRecord(session, file.fields, pid).Some? then [FromRecord(session, file.fields, pid).value] else [])
  {
    assert (sessions + [session])[..|sessions|] == sessions && (files + [file])[..|files|] == files && (pids + [pid])[..|pids|] == pids;
  }

  /** Nothing that was found carries a display environment. */
  lemma {:induction false} FoundLackDisplay(sessions: seq<string>, files: seq<RecordFile>, pids: seq<Js<int>>)
    requires |sessions| == |files| == |pids|
    ensures forall p :: p in HandoffsFound(sessions, files, pids) ==>
              p.displayEnvironment.Undefined? && Normalised(p) && p.sessionName in sessions
  {
    if sessions != [] {
      var last := |sessions| - 1;
      FoundLackDisplay(sessions[..last], files[..last], pids[..last]);
    }
  }

  lemma AllReadableLater(sessions: seq<string>, files: seq<RecordFile>, pids: seq<Js<int>>, done: History, more: History)
    requires |files| == |pids| <= |sessions| && forall j :: 0 <= j < |files| ==> Readable(sessions[j], files[j], pids[j], done)
    ensures forall j :: 0 <= j < |files| ==> Readable(sessions[j], files[j], pids[j], done + more)
  {
    hide Readable;
    forall j | 0 <= j < |files| ensures Readable(sessions[j], files[j], pids[j], done + more) {
      ReadableLater(sessions[j], files[j], pids[j], done, more);
    }
  }

  lemma ReadableNow(session: string, file: RecordFile, pid: Js<int>, done: History, step: History)
    requires ValidSessionName(session) && !file.Unparsable?
    requires step == [Event(session, ReadRecord(RecordPath(session), file))] + if file.Parsed? then [Event(session, ReadPidFile(pid))] else []
    requires file.Parsed? ==> FromRecord(session, file.fields, pid).Some?
    ensures Readable(session, file, pid, done + step)
  {
    hide ValidSessionName, FromRecord, RecordPath;
    assert step[0] in done + step && (file.Parsed? ==> step[1] in done + step);
  }

  // Merging with the journal

  /** `{ ...older, ...newer }`, key by key: an absent key keeps the older value. */
  function Later<T>(older: Js<T>, newer: Js<T>): Js<T> {
    if newer.Undefined? then older else newer
  }

  function Overlay(older: PreparedHandoff, newer: PreparedHandoff): PreparedHandoff {
    PreparedHandoff(
      newer.sessionName, Later(older.daemonPid, newer.daemonPid), Later(older.browserPid, newer.browserPid),
      Later(older.cdpUrl, newer.cdpUrl), Later(older.runtimeProfile, newer.runtimeProfile), Later(older.host, newer.host),
      Later(older.handoffPath, newer.handoffPath), Later(older.displayEnvironment, newer.displayEnvironment),
      Later(older.strandedDaemonTermination, newer.strandedDaemonTermination))
  }

  predicate Agree(a: PreparedHandoff, b: PreparedHandoff) {
    a.browserPid == b.browserPid && a.cdpUrl == b.cdpUrl && a.runtimeProfile == b.runtimeProfile
  }

  /** Where the insertion-ordered map has the session, or its size. */
  function Find(merged: seq<PreparedHandoff>, session: string): (i: nat)
    ensures i <= |merged| && (i < |merged| ==> merged[i].sessionName == session)
    ensures forall j :: 0 <= j < i ==> merged[j].sessionName != session
  {
    if merged == [] then 0
    else if merged[0].sessionName == session then 0
    else 1 + Find(merged[1..], session)
  }

  function Put(merged: seq<PreparedHandoff>, handoff: PreparedHandoff): Result<seq<PreparedHandoff>, HandoffError> {
    var i := Find(merged, handoff.sessionName);
    if i == |merged| then Ok(merged + [handoff])
    else if !Agree(merged[i], handoff) then Err(ConflictingEvidence(handoff.sessionName))
    else Ok(merged[i := Overlay(merged[i], handoff)])
  }

  ghost function Merged(evidence: seq<PreparedHandoff>): Result<seq<PreparedHandoff>, HandoffError> {
    if evidence == [] then Ok([])
    else
      var prior := Merged(evidence[..|evidence|-1]);
      if prior.Err? then prior else Put(prior.value, evidence[|evidence|-1])
  }

  /** mergePreparedHandoffs, up to the order in which it finally sorts. */
  method MergePreparedHandoffs(recorded: seq<PreparedHandoff>, discovered: seq<PreparedHandoff>) returns (r: Result<seq<PreparedHandoff>, HandoffError>)
    ensures r == Merged(recorded + discovered)
  {
    hide Agree, Overlay, Merged, Find;
    var evidence := recorded + discovered;
    var merged: seq<PreparedHandoff> := [];
    MergedNothing();
    assert evidence[..0] == [];
    for i := 0 to |evidence|
      invariant Merged(evidence[..i]) == Ok(merged)
    {
      MergedStep(evidence, i);
      var handoff := evidence[i];
      var at := Find(merged, handoff.sessionName);
      if at < |merged| && !Agree(merged[at], handoff) {
        MergeStaysRefused(evidence, i + 1);
        return Err(ConflictingEvidence(handoff.sessionName));
      }
      merged := if at < |merged| then merged[at := Overlay(merged[at], handoff)] else merged + [handoff];
    }
    assert evidence[..|evidence|] == evidence;
    r := Ok(merged);
  }

  lemma MergedNothing()
    ensures Merged([]) == Ok([])
  {}

  lemma MergedStep(evidence: seq<PreparedHandoff>, i: nat)
    requires i < |evidence| && Merged(evidence[..i]).Ok?
    ensures Merged(evidence[..i+1]) == Put(Merged(evidence[..i]).value, evidence[i])
  {
    assert evidence[..i+1][..i] == evidence[..i];
  }

  lemma {:induction false} MergeStaysRefused(evidence: seq<PreparedHandoff>, n: nat)
    requires n <= |evidence| && Merged(evidence[..n]).Err?
    ensures Merged(evidence) == Merged(evidence[..n])
    decreases |evidence|
  {
    if n == |evidence| {
      assert evidence[..n] == evidence;
    } else {
      assert evidence[..|evidence|-1][..n] == evidence[..n];
      MergeStaysRefused(evidence[..|evidence|-1], n);
    }
  }

  /** `m` is the one merged entry of its session: it agrees with every piece of evidence
      on that session, and lost its display only if none of them has one. */
  ghost predicate Stands(m: PreparedHandoff, evidence: seq<PreparedHandoff>) {
    && (exists x :: x in evidence && x.sessionName == m.sessionName)
    && (forall x :: x in evidence && x.sessionName == m.sessionName ==> Agree(m, x))
    && (m.displayEnvironment.Undefined? <==>
          forall x :: x in evidence && x.sessionName == m.sessionName ==> x.displayEnvironment.Undefined?)
  }

  ghost predicate MergedWell(merged: seq<PreparedHandoff>, evidence: seq<PreparedHandoff>) {
    && Distinct(merged)
    && (forall m :: m in merged ==> Stands(m, evidence))
    && (forall x :: x in evidence ==> exists m :: m in merged && m.sessionName == x.sessionName)
  }

  ghost predicate Conflict(evidence: seq<PreparedHandoff>) {
    exists a, b :: a in evidence && b in evidence && a.sessionName == b.sessionName && !Agree(a, b)
  }

  lemma StandsLater(m: PreparedHandoff, evidence: seq<PreparedHandoff>, x: PreparedHandoff)
    requires Stands(m, evidence) && x.sessionName != m.sessionName
    ensures Stands(m, evidence + [x])
  {
    hide Agree;
    assert forall y :: y in evidence + [x] <==> y in evidence || y == x;
  }

  lemma StandsOverlaid(m: PreparedHandoff, evidence: seq<PreparedHandoff>, x: PreparedHandoff)
    requires Stands(m, evidence) && x.sessionName == m.sessionName && Agree(m, x)
    ensures Stands(Overlay(m, x), evidence + [x])
  {
    assert forall y :: y in evidence + [x] <==> y in evidence || y == x;
    var y :| y in evidence && y.sessionName == m.sessionName;
    assert y in evidence + [x] && y.sessionName == Overlay(m, x).sessionName;
  }

  lemma StandsFirst(evidence: seq<PreparedHandoff>, x: PreparedHandoff)
    requires forall y :: y in evidence ==> y.sessionName != x.sessionName
    ensures Stands(x, evidence + [x])
  {
    assert forall y :: y in evidence + [x] <==> y in evidence || y == x;
    assert x in evidence + [x];
  }

  lemma PutMeans(merged: seq<PreparedHandoff>, evidence: seq<PreparedHandoff>, x: PreparedHandoff)
    requires MergedWell(merged, evidence)
    ensures Put(merged, x).Ok? ==> MergedWell(Put(merged, x).value, evidence + [x])
    ensures Put(merged, x).Err? <==> exists y :: y in evidence && y.sessionName == x.sessionName && !Agree(y, x)
  {
    hide Stands, Overlay, Agree;
    var i := Find(merged, x.sessionName);
    if i == |merged| {
      assert forall m :: m in merged ==> m.sessionName != x.sessionName;
      var all := merged + [x];
      StandsFirst(evidence, x);
      forall m | m in all ensures Stands(m, evidence + [x]) {
        if m in merged { StandsLater(m, evidence, x); }
      }
      forall y | y in evidence + [x] ensures exists m :: m in all && m.sessionName == y.sessionName {
        if y in evidence {
          var m :| m in merged && m.sessionName == y.sessionName;
          assert m in all;
        } else {
          assert x in all;
        }
      }
    } else {
      assert merged[i] in merged;
      StandsAgrees(merged[i], evidence, x);
      if Agree(merged[i], x) {
        PutOverlays(merged, evidence, x, i);
      }
    }
  }

  lemma StandsAgrees(m: PreparedHandoff, evidence: seq<PreparedHandoff>, x: PreparedHandoff)
    requires Stands(m, evidence) && m.sessionName == x.sessionName
    ensures Agree(m, x) <==> forall y :: y in evidence && y.sessionName == x.sessionName ==> Agree(y, x)
  {}

  lemma PutOverlays(merged: seq<PreparedHandoff>, evidence: seq<PreparedHandoff>, x: PreparedHandoff, i: nat)
    requires MergedWell(merged, evidence) && i < |merged| && merged[i].sessionName == x.sessionName && Agree(merged[i], x)
    ensures MergedWell(merged[i := Overlay(merged[i], x)], evidence + [x])
  {
    hide Stands, Agree;
    var all := merged[i := Overlay(merged[i], x)];
    assert merged[i] in merged && forall j :: 0 <= j < |all| ==> all[j].sessionName == merged[j].sessionName;
    StandsOverlaid(merged[i], evidence, x);
    forall j | 0 <= j < |all| ensures Stands(all[j], evidence + [x]) {
      if j != i {
        assert merged[j] in merged && merged[j].sessionName != x.sessionName;
        StandsLater(merged[j], evidence, x);
      }
    }
    forall y | y in evidence + [x] ensures exists m :: m in all && m.sessionName == y.sessionName {
      if y in evidence {
        var m :| m in merged && m.sessionName == y.sessionName;
        var j :| 0 <= j < |merged| && merged[j] == m;
        assert all[j] in all;
      } else {
        assert all[i] in all;
      }
    }
  }

  /** The merge fails exactly on two pieces of evidence for one session that name
      different browsers; otherwise it is one entry per session that agrees with all
      evidence on it and keeps the display environment wherever any of it has one. */
  lemma {:induction false} MergeMeans(evidence: seq<PreparedHandoff>)
    ensures Merged(evidence).Err? <==> Conflict(evidence)
    ensures Merged(evidence).Ok? ==> MergedWell(Merged(evidence).value, evidence)
    decreases |evidence|
  {
    hide MergedWell, Conflict, Put, Agree;
    if evidence == [] {
      MergeOfNothing();
    } else {
      var prior, x := evidence[..|evidence|-1], evidence[|evidence|-1];
      assert evidence == prior + [x];
      MergeMeans(prior);
      ConflictStep(prior, x);
      if Merged(prior).Ok? {
        PutMeans(Merged(prior).value, prior, x);
      }
    }
  }

  lemma MergeOfNothing()
    ensures MergedWell([], []) && !Conflict([])
  {}

  lemma ConflictStep(prior: seq<PreparedHandoff>, x: PreparedHandoff)
    ensures Conflict(prior + [x]) <==> Conflict(prior) || exists y :: y in prior && y.sessionName == x.sessionName && !Agree(y, x)
  {
    assert forall y :: y in prior + [x] <==> y in prior || y == x;
  }

  /** A completed pass that the journal recorded is recognised after a crash, whatever
      record files it left behind, as long as they name its own sessions. */
  lemma RecoveryRecognisesCompletedPass(ps: seq<PreparedHandoff>, qs: seq<ResumedHandoff>, discovered: seq<PreparedHandoff>)
    requires |qs| == |ps| && Distinct(ps) && forall i :: 0 <= i < |ps| ==> Conserves(ps[i], qs[i])
    requires forall d :: d in discovered ==> d.sessionName in Names(ps)
    requires Merged(ps + discovered).Ok?
    ensures HandoffsAlreadyResumed(Merged(ps + discovered).value, qs)
  {
    hide Conserves, Merged, Stands, HandoffsAlreadyResumed, Agree, Distinct;
    var merged, evidence := Merged(ps + discovered).value, ps + discovered;
    MergeMeans(evidence);
    CompletedPassIsRecognised(ps, qs);
    forall m | m in merged ensures AgreesWithin(m, ps) {
      StandsWithin(m, ps, discovered);
    }
    RecognisedThrough(ps, merged, qs);
  }

  ghost predicate AgreesWithin(m: PreparedHandoff, ps: seq<PreparedHandoff>) {
    exists p :: p in ps && p.sessionName == m.sessionName && Agree(m, p)
  }

  lemma StandsWithin(m: PreparedHandoff, ps: seq<PreparedHandoff>, discovered: seq<PreparedHandoff>)
    requires Stands(m, ps + discovered) && forall d :: d in discovered ==> d.sessionName in Names(ps)
    ensures AgreesWithin(m, ps)
  {
    hide Agree;
    var x :| x in ps + discovered && x.sessionName == m.sessionName;
    assert m.sessionName in Names(ps);
    var i :| 0 <= i < |ps| && Names(ps)[i] == m.sessionName;
    assert ps[i] in ps && ps[i] in ps + discovered;
  }

  lemma RecognisedThrough(ps: seq<PreparedHandoff>, merged: seq<PreparedHandoff>, qs: seq<ResumedHandoff>)
    requires HandoffsAlreadyResumed(ps, qs) && forall m :: m in merged ==> AgreesWithin(m, ps)
    ensures HandoffsAlreadyResumed(merged, qs)
  {}

  /** After recovery an attached external browser is refused exactly if its PID is
      recorded and no piece of journal evidence kept its display environment. */
  lemma CustodyAfterRecovery(recorded: seq<PreparedHandoff>, discovered: seq<PreparedHandoff>, m: PreparedHandoff)
    requires Stands(m, recorded + discovered)
    requires forall d :: d in discovered ==> d.displayEnvironment.Undefined?
    ensures LacksCustody(m) <==>
              && m.host == Value("attached_existing") && m.browserPid.Value?
              && forall x :: x in recorded && x.sessionName == m.sessionName ==> x.displayEnvironment.Undefined?
  {
    hide Agree;
    assert forall x :: x in recorded + discovered <==> x in recorded || x in discovered;
  }

  lemma {:induction false} ConflictIsNamed(evidence: seq<PreparedHandoff>)
    requires Merged(evidence).Err?
    ensures Merged(evidence).error.ConflictingEvidence?
    decreases |evidence|
  {
    if Merged(evidence[..|evidence|-1]).Err? {
      ConflictIsNamed(evidence[..|evidence|-1]);
    }
  }

  lemma MergedStands(merged: seq<PreparedHandoff>, evidence: seq<PreparedHandoff>, m: PreparedHandoff)
    requires MergedWell(merged, evidence) && m in merged
    ensures Stands(m, evidence)
  {}

  lemma StandsNormalised(recorded: seq<PreparedHandoff>, discovered: seq<PreparedHandoff>, m: PreparedHandoff)
    requires Stands(m, recorded + discovered) && forall d :: d in discovered ==> Normalised(d)
    ensures (forall x :: x in recorded ==> Normalised(x)) ==> Normalised(m)
  {
    var x :| x in recorded + discovered && x.sessionName == m.sessionName;
    assert x in recorded || x in discovered;
  }

  /** The entry of the evidence put in last has that evidence's host. */
  lemma NewestStands(merged: seq<PreparedHandoff>, recorded: seq<PreparedHandoff>, found: PreparedHandoff, i: nat)
    requires Merged(recorded + [found]) == Ok(merged) && MergedWell(merged, recorded + [found]) && i == Find(merged, found.sessionName)
    requires !found.host.Undefined?
    ensures i < |merged| && Stands(merged[i], recorded + [found]) && merged[i].sessionName == found.sessionName
    ensures merged[i].host == found.host && merged[i].browserPid == found.browserPid
  {
    hide Stands, Agree;
    assert (recorded + [found])[..|recorded|] == recorded && found in recorded + [found];
    var m :| m in merged && m.sessionName == found.sessionName;
    assert merged[i] in merged;
    StandsAgrees(merged[i], recorded + [found], found);
    NewestHost(Merged(recorded).value, found, merged, i);
    NewestPid(merged[i], recorded + [found], found);
  }

  lemma NewestPid(m: PreparedHandoff, evidence: seq<PreparedHandoff>, x: PreparedHandoff)
    requires Stands(m, evidence) && x in evidence && x.sessionName == m.sessionName
    ensures m.browserPid == x.browserPid
  {}

  lemma NewestHost(prior: seq<PreparedHandoff>, found: PreparedHandoff, merged: seq<PreparedHandoff>, i: nat)
    requires Put(prior, found) == Ok(merged) && Distinct(merged) && !found.host.Undefined?
    requires i < |merged| && merged[i].sessionName == found.sessionName
    ensures merged[i].host == found.host
  {
    var at := Find(prior, found.sessionName);
    assert merged[at].sessionName == found.sessionName;
    assert !(at < i) && !(i < at);
  }

  lemma NoneResumed(qs: seq<ResumedHandoff>)
    ensures HandoffsAlreadyResumed([], qs)
  {}
}
