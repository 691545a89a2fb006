/** The two in-process executions that hold private capabilities: renewal through the
    authenticated executor socket, and hand-over to a trusted consumer
    (scripts/private-renewal-coordinator.py:153-288, scripts/private-sam-discovery.py:46-146). */
module PrivateRenewal {
  import opened JsValues
  import opened SlackText
  import opened PrivateBroker
  import Material = SlackMaterial
  import Scan = SlackScan
  import Slack = SlackDiscovery
  import Local = CredentialSlot

  /** A callback the broker makes; `LateCollect` is the discovery callback, if the
      discovery runner leaked it. */
  datatype BrokerCall = HandOff(manifest: Manifest, references: References) | LateCollect(late: Manifest)

  /** Everything outside: every answer, and every next callback, may depend on all
      that happened so far. */
  datatype Environment = Environment(
    now: History -> nat,
    collectFor: History -> Manifest,
    discoveryReturns: History -> bool,
    call: History -> BrokerCall,
    brokerReturns: History -> bool,
    connection: History -> Option<Slack.Connection>,
    transport: History -> Scan.Transport,
    probe: History -> Option<Slack.Identity>,
    fetch: (History, string) -> Result<Scan.Page, Material.SlackError>,
    connects: History -> bool,
    proves: History -> bool,
    plan: History -> Option<Manifest>,
    binds: History -> bool,
    completes: History -> bool,
    delivers: History -> Option<string>)

  /** The act records the environment's own answer, given what happened before. */
  predicate Answers(env: Environment, h: History, e: Event) {
    match e
    case Presented(_, _, now) => now == env.now(h)
    case Connected(passes) => passes == env.connects(h)
    case Challenged(proves) => proves == env.proves(h)
    case ReadPlan(plan, at) => plan == env.plan(h) && at == env.now(h)
    case Bound(binds) => binds == env.binds(h)
    case Completed(completes) => completes == env.completes(h)
    case Delivered(delivery) => delivery == env.delivers(h)
    case _ => true
  }

  ghost predicate Faithful(env: Environment, h: History) {
    forall k :: 0 <= k < |h| ==> Answers(env, h[..k], h[k])
  }

  lemma FaithfulStep(env: Environment, h: History, e: Event)
    requires Faithful(env, h) && Answers(env, h, e)
    ensures Faithful(env, h + [e])
  {
    hide Answers;
    assert (h + [e])[..|h|] == h && forall k :: 0 <= k < |h| ==> (h + [e])[..k] == h[..k];
  }

  /** The lists of a run are what its acts say, and every answer on record is the environment's. */
  ghost predicate Tallies(env: Environment, h: History, retained: seq<Capability>, sent: seq<seq<Step>>, installed: seq<string>) {
    && Fed(h) && Stocked(h, retained) && sent == Sends(h) && installed == Deliveries(h)
    && Faithful(env, h)
  }

  /** One more act, with what it does to the lists. */
  lemma TalliesStep(env: Environment, h: History, retained: seq<Capability>, sent: seq<seq<Step>>, installed: seq<string>, e: Event, left: seq<Capability>)
    requires Tallies(env, h, retained, sent, installed) && Answers(env, h, e)
    requires if e.Took? then retained != [] && left == [] else left == retained || Mints(e)
    ensures Tallies(env, h + [e], left,
                    if e.Sent? then sent + [e.operations] else sent,
                    if e.Delivered? && e.delivery.Some? then installed + [e.delivery.value] else installed)
  {
    hide Fed, Stocked, Faithful, Answers;
    FedStep(h, retained, e, left);
    OutcomeStep(h, e);
    FaithfulStep(env, h, e);
  }

  /** execution.json: absent, left incomplete by a failed write, or complete. */
  datatype Stored = Nothing | Incomplete | Complete(file: AuthorityFile)

  datatype WriteOutcome = Written | NotCreated | BrokenOff

  const FILE_LIMIT: nat := 65536
  const KEY_LENGTH: nat := 32

  /** The secret came out of the capability, which is spent: out of the slot version
      it was discovered at, or out of the messages classified at discovery. The maps
      are the provenance tables before the extraction. */
  ghost predicate Revealed(c: Capability, s: Secret,
                           provenance: map<Local.LocalDiscoveryResult, (Local.Authority, Local.Reference)>,
                           seenAt: map<Local.LocalDiscoveryResult, nat>,
                           snapshots: map<Slack.DiscoveryResult, Slack.Provenance>,
                           local: Local.LocalCredentials, slack: Slack.PrivateSlack)
    reads local, slack
  {
    match c
    case FromLocal(a, d) =>
      && d in provenance && d !in local.provenance
      && local.slot.Present? && local.slot.version == d.credentialSource.lastWritten
      && d in seenAt && seenAt[d] < |local.log| && Local.Same(local.log, seenAt[d], |local.log|-1)
      && local.decode(local.slot.blob).Some?
      && Local.CheckMaterial(local.decode(local.slot.blob).value) == Ok(Local.Material(s.email, s.password, s.codes))
    case FromSlack(_, a, d) =>
      && d in snapshots && d !in slack.snapshots
      && s.email == a.account_email
      && Slack.DiscoveredMaterial(slack.read, d, snapshots[d], s.password, s.codes)
  }

  /** The file that prepare_authority would create. */
  function AuthorityFor(x: Codec, planId: string, digest: string, m: Manifest, operations: seq<Step>, endpoint: string): AuthorityFile {
    AuthorityFile(planId, digest, x.recipeSha(operations), endpoint, m.session_name, m.expires_at, operations)
  }

  /** How many capabilities the run was given. */
  ghost function Minted(h: History): nat {
    if h == [] then 0 else Minted(h[..|h|-1]) + if Mints(h[|h|-1]) then 1 else 0
  }

  lemma MintedStep(h: History, e: Event)
    ensures Minted(h + [e]) == Minted(h) + if Mints(e) then 1 else 0
  {
    assert (h + [e])[..|h|] == h;
  }

  lemma {:induction false} MintedBy(h: History, more: History)
    ensures Minted(h + more) == Minted(h) + Minted(more)
    decreases |more|
  {
    if more == [] {
      assert h + more == h;
    } else {
      var prior, e := more[..|more|-1], more[|more|-1];
      assert h + more == (h + prior) + [e] && more == prior + [e];
      MintedBy(h, prior);
      MintedStep(h + prior, e);
      MintedStep(prior, e);
    }
  }

  lemma {:induction false} NoneMinted(h: History)
    ensures Minted(h) == 0 <==> forall k :: 0 <= k < |h| ==> !Mints(h[k])
  {
    if h != [] {
      NoneMinted(h[..|h|-1]);
    }
  }

  class Execution {
    const x: Codec
    const local: Local.LocalCredentials
    const slack: Slack.PrivateSlack
    const env: Environment

    var stored: Stored
    var history: History
    var retained: seq<Capability>
    /** What has gone over the executor socket. */
    var sent: seq<seq<Step>>
    var installed: seq<string>
    var consumed: seq<Secret>

    ghost predicate SourcesValid()
      reads local, slack
    {
      local.Valid() && slack.Valid()
    }

    /** The lists of the run are what its acts say. */
    ghost predicate Coherent()
      reads `history, `retained, `sent, `installed
    {
      Tallies(env, history, retained, sent, installed)
    }

    /** The capability can be turned into its secret: the channel serves both sources as
        snapshotted, or the slot still holds what was discovered and nobody interferes.
        For the channel nothing less will do. */
    ghost predicate Yields(c: Capability, h: History)
      reads local, slack
    {
      match c
      case FromLocal(a, d) =>
        && local.Valid() && local.Quiet(3) && d in local.provenance && a == local.provenance[d].0
        && local.slot == local.log[local.seenAt[d]] && local.Readable(local.slot, a.account_email)
      case FromSlack(connection, a, d) =>
        && d in slack.snapshots
        && var p := slack.snapshots[d];
           && slack.Valid() && Slack.MayExtract(connection, a, p, env.probe(h))
           && Slack.Servable(slack.read, ts => env.fetch(h, ts), d.credentialTs, a, p.snapshots[d.credentialTs])
           && Slack.Servable(slack.read, ts => env.fetch(h, ts), d.backupTs, a, p.snapshots[d.backupTs])
    }

    constructor (x: Codec, local: Local.LocalCredentials, slack: Slack.PrivateSlack, env: Environment)
      requires local.Valid() && slack.Valid()
      ensures SourcesValid() && Coherent() && history == [] && stored == Nothing
      ensures this.x == x && this.local == local && this.slack == slack && this.env == env
    {
      this.x, this.local, this.slack, this.env := x, local, slack, env;
      stored, history, retained, sent, installed, consumed := Nothing, [], [], [], [], [];
    }

    /** prepare_authority: an authority file is created at most once and never
        replaced, and a complete one is valid for the approved plan. */
    method PrepareAuthority(planId: string, digest: string, approved: Option<Manifest>, operations: seq<Step>, endpoint: string,
                            matchesRetained: bool, keyLength: nat, now: nat, write: WriteOutcome) returns (ok: bool)
      modifies `stored
      ensures old(stored) != Nothing ==> stored == old(stored) && !ok
      ensures ok ==>
                && stored.Complete? && approved.Some? && Validates(x, stored.file, approved.value, now)
                && stored.file.planId == planId && stored.file.manifestSha256 == digest && stored.file.operations == operations
      ensures !ok ==> stored == old(stored) || stored == Incomplete
      // it refuses only for a reason, and a write that breaks off leaves an incomplete file
      ensures var admitted :=
                && approved.Some? && matchesRetained && keyLength == KEY_LENGTH && old(stored) == Nothing
                && var a := AuthorityFor(x, planId, digest, approved.value, operations, endpoint);
                   Validates(x, a, approved.value, now) && x.fileSize(a) <= FILE_LIMIT;
              && (ok <==> admitted && write == Written)
              && (stored == Incomplete <==> old(stored) == Incomplete || (admitted && write == BrokenOff))
    {
      if approved.None? || !matchesRetained {
        return false;
      }
      var m := approved.value;
      var a := AuthorityFor(x, planId, digest, m, operations, endpoint);
      if !Validates(x, a, m, now) || x.fileSize(a) > FILE_LIMIT || keyLength != KEY_LENGTH {
        return false;
      }
      if stored != Nothing || write == NotCreated {
        return false;
      }
      ok := write == Written;
      stored := if ok then Complete(a) else Incomplete;
    }

    /** An act that neither takes, mints, sends nor delivers. */
    method Record(e: Event)
      requires Coherent() && !e.Took? && !Mints(e) && !e.Sent? && !e.Delivered? && Answers(env, history, e)
      modifies `history
      ensures Coherent() && history == old(history) + [e]
    {
      hide Tallies;
      TalliesStep(env, history, retained, sent, installed, e, retained);
      history := history + [e];
    }

    /** The source named by the manifest, with the authority that limits it. */
    method Discover(m: Manifest) returns (r: Option<Capability>)
      requires SourcesValid()
      modifies local, slack
      ensures SourcesValid()
    {
      var account := Lower(m.account_email);
      match m.discovery
      case LocalCredential(store) =>
        var authority := Local.Authority(store, account);
        var found := local.Discover(authority);
        r := if found.Ok? then Some(FromLocal(authority, found.value)) else None;
      case SlackChannel(team, channel, oldest, latest, messages, pages) =>
        var authority := Scan.Authority(team, channel, account, oldest, latest, messages, pages);
        var connection := env.connection(history);
        if connection.None? {
          return None;
        }
        var found := slack.Discover(connection.value, authority, env.probe(history), env.transport(history).(read := slack.read));
        r := if found.Ok? then Some(FromSlack(connection.value, authority, found.value)) else None;
      case OtherScope =>
        r := None;
    }

    /** collect: one discovery, and the capability it minted. */
    method Collect(m: Manifest) returns (r: Option<References>)
      requires SourcesValid() && Coherent()
      modifies `retained, `history, local, slack
      ensures SourcesValid() && Coherent()
      ensures exists minted ::
                && history == old(history) + [Collected(minted)]
                && retained == (if minted.Some? then old(retained) + [minted.value] else old(retained))
                && r == (if minted.Some? then Some(PublicReferences(minted.value)) else None)
    {
      hide SourcesValid, Tallies;
      var minted := Discover(m);
      var e := Collected(minted);
      TalliesStep(env, history, retained, sent, installed, e, if minted.Some? then retained + [minted.value] else retained);
      history := history + [e];
      r := None;
      if minted.Some? {
        retained := retained + [minted.value];
        r := Some(PublicReferences(minted.value));
      }
    }

    /** retained.pop() */
    method Take() returns (c: Capability)
      requires Coherent() && |retained| == 1
      modifies `retained, `history
      ensures Coherent() && retained == [] && c == old(retained)[0] && history == old(history) + [Took(c)]
    {
      hide Tallies;
      c := retained[0];
      TalliesStep(env, history, retained, sent, installed, Took(c), []);
      retained, history := [], history + [Took(c)];
    }

    /** extract_private_material: the one act that touches the private sources. It is
        on record whether or not it succeeds. */
    method ExtractPrivate(c: Capability) returns (r: Option<Secret>)
      requires SourcesValid() && Coherent()
      modifies `history, local, slack
      ensures SourcesValid() && Coherent() && history == old(history) + [Extracted(c, r)]
      ensures old(Yields(c, history)) ==> r.Some?
      ensures c.FromSlack? && r.Some? ==> old(Yields(c, history))
      ensures r.Some? ==> Revealed(c, r.value, old(local.provenance), old(local.seenAt), old(slack.snapshots), local, slack)
    {
      hide Tallies, Yields, Revealed;
      r := Reveal(c);
      TalliesStep(env, history, retained, sent, installed, Extracted(c, r), retained);
      history := history + [Extracted(c, r)];
    }

    method Reveal(c: Capability) returns (r: Option<Secret>)
      requires SourcesValid()
      modifies local, slack
      ensures SourcesValid()
      ensures old(Yields(c, history)) ==> r.Some?
      ensures c.FromSlack? && r.Some? ==> old(Yields(c, history))
      ensures r.Some? ==> Revealed(c, r.value, old(local.provenance), old(local.seenAt), old(slack.snapshots), local, slack)
    {
      match c
      case FromLocal(authority, result) =>
        var material := local.Extract(authority, result);
        r := if material.Ok? then Some(Secret(material.value.email, material.value.password, material.value.backupCodes)) else None;
      case FromSlack(connection, authority, result) =>
        var h := history;
        var material := slack.Extract(connection, authority, result, env.probe(h), ts => env.fetch(h, ts));
        r := if material.Ok? then Some(Secret(material.value.email, material.value.password, material.value.backup_codes)) else None;
    }

    /** stream.sendall of the filled recipe. */
    method Send(operations: seq<Step>)
      requires Coherent()
      modifies `sent, `history
      ensures Coherent() && sent == old(sent) + [operations] && history == old(history) + [Sent(operations)]
    {
      hide Tallies;
      TalliesStep(env, history, retained, sent, installed, Sent(operations), retained);
      sent, history := sent + [operations], history + [Sent(operations)];
    }

    /** receive_sam_credential_delivery */
    method Deliver() returns (delivery: Option<string>)
      requires Coherent()
      modifies `installed, `history
      ensures Coherent() && history == old(history) + [Delivered(delivery)]
      ensures delivery == env.delivers(old(history))
    {
      hide Tallies;
      delivery := env.delivers(history);
      TalliesStep(env, history, retained, sent, installed, Delivered(delivery), retained);
      history := history + [Delivered(delivery)];
      if delivery.Some? {
        installed := installed + [delivery.value];
      }
    }

    /** The callback is presented with a manifest, and takes the one retained
        capability if that is the plan under review. */
    method Admit(a: AuthorityFile, m: Manifest, references: References) returns (c: Option<Capability>, ghost done: History)
      requires Coherent()
      modifies `retained, `history
      ensures Coherent() && history == old(history) + done && Orderly(x, a, done)
      ensures 1 <= |done| <= 2 && done[0].Presented? && done[0].manifest == m && done[0].references == references
      ensures |done| == 2 <==> |old(retained)| == 1 && PresentedValidly(x, a, done[0])
      ensures |done| == 2 ==> done[1] == Took(old(retained)[0])
      ensures retained == if |done| == 2 then [] else old(retained)
      ensures c.Some? <==> |done| == 2 && Matches(a, done[1].capability, references)
      ensures c.Some? ==> c.value == done[1].capability
    {
      hide Coherent, Validates, Orderly, Matches, Justified;
      c := None;
      var presented := Presented(m, references, env.now(history));
      Begins(x, a, presented);
      Record(presented);
      done := [presented];
      if !Validates(x, a, m, presented.now) || |retained| != 1 {
        return;
      }
      var taken := Take();
      AllowsTake(x, a, done, taken);
      done := Allowed(x, a, done, Took(taken));
      if Matches(a, taken, references) {
        c := Some(taken);
      }
    }

    /** The socket and its peer are checked, and the server answers the challenge. */
    method ProveServer(a: AuthorityFile, ghost before: History) returns (ok: bool, ghost done: History)
      requires Coherent() && Orderly(x, a, before) && |before| == 2 && before[0].Presented? && before[1].Took?
      requires Matches(a, before[1].capability, before[0].references)
      modifies `history
      ensures Coherent() && before <= done && history == old(history) + done[2..] && Orderly(x, a, done)
      ensures 3 <= |done| <= 4 && done[2].Connected? && (|done| == 4 <==> done[2].passes)
      ensures |done| == 4 ==> done[3].Challenged?
      ensures ok <==> |done| == 4 && done[3].proves
    {
      hide Coherent, Orderly, Matches, Justified;
      var passes := env.connects(history);
      Record(Connected(passes));
      AllowsConnect(x, a, before, passes);
      done := Allowed(x, a, before, Connected(passes));
      ok := false;
      if passes {
        var proves := env.proves(history);
        Record(Challenged(proves));
        AllowsChallenge(x, a, done, proves);
        done := Allowed(x, a, done, Challenged(proves));
        ok := proves;
      }
    }

    /** The consumed plan is read again, and the controller bound. */
    method Recheck(a: AuthorityFile, ghost before: History) returns (ok: bool, ghost done: History)
      requires Coherent() && Orderly(x, a, before) && |before| == 4 && before[3] == Challenged(true)
      modifies `history
      ensures Coherent() && before <= done && history == old(history) + done[4..] && Orderly(x, a, done)
      ensures 5 <= |done| <= 6 && done[4].ReadPlan? && (|done| == 6 <==> ValidPlan(x, a, done[4]))
      ensures |done| == 6 ==> done[5].Bound?
      ensures ok <==> |done| == 6 && done[5].binds
    {
      hide Coherent, Orderly, Matches, Justified, Validates;
      var read := ReadPlan(env.plan(history), env.now(history));
      Record(read);
      AllowsRead(x, a, before, read);
      done := Allowed(x, a, before, read);
      ok := false;
      if read.plan.Some? && Validates(x, a, read.plan.value, read.at) {
        var binds := env.binds(history);
        Record(Bound(binds));
        AllowsBind(x, a, done, binds);
        done := Allowed(x, a, done, Bound(binds));
        ok := binds;
      }
    }

    /** The callback up to the extraction: it takes the one retained capability and has
        the server prove itself, with the private sources out of reach. `done` is what
        it did; it stops only where it must. */
    method BeforeExtraction(a: AuthorityFile, m: Manifest, references: References) returns (c: Option<Capability>, ghost done: History)
      requires Coherent()
      modifies `retained, `history
      ensures Coherent() && history == old(history) + done && Orderly(x, a, done)
      ensures 1 <= |done| <= 6 && done[0].Presented? && done[0].manifest == m && done[0].references == references
      ensures forall k :: 0 <= k < |done| ==> !Mints(done[k]) && !done[k].Extracted? && !done[k].Delivered?
      ensures |done| > 1 ==> |old(retained)| == 1 && PresentedValidly(x, a, done[0]) && done[1] == Took(old(retained)[0])
      ensures retained == if |done| > 1 then [] else old(retained)
      ensures c.Some? <==> Continues(x, a, old(retained), done)
      ensures c.Some? ==> |done| == 6 && done[5] == Bound(true) && c.value == done[1].capability
    {
      hide Coherent, Validates, Orderly, Matches, PresentedValidly, ValidPlan;
      c, done := Admit(a, m, references);
      if c.None? {
        return;
      }
      var ok;
      ghost var admitted := done;
      ok, done := ProveServer(a, admitted);
      assert done == admitted + done[2..];
      if !ok {
        c := None;
        return;
      }
      ghost var proved := done;
      ok, done := Recheck(a, proved);
      assert done == proved + done[4..];
      if !ok {
        c := None;
      }
    }

    /** The plan is read once more after the extraction, and the filled recipe goes out. */
    method SendFilled(a: AuthorityFile, m: Manifest, s: Secret, ghost before: History) returns (ok: bool, ghost done: History)
      requires Coherent() && Orderly(x, a, before) && |before| == 7 && before[6].Extracted? && before[6].secret == Some(s)
      requires |a.operations| == 4 && Holds(a.operations[0], "email", Lower(m.account_email))
      modifies `sent, `history
      ensures Coherent() && before <= done && history == old(history) + done[7..] && Orderly(x, a, done)
      ensures 7 <= |done| <= 9 && (|done| > 7 <==> UsableSecret(a, before[6]))
      ensures |done| > 7 ==> done[7].ReadPlan? && (|done| == 9 <==> ValidPlan(x, a, done[7]) && Fits(x, Filled(a, s)))
      ensures ok <==> |done| == 9
      ensures ok ==> done[8] == Sent(Filled(a, s))
    {
      hide Coherent, Orderly, Justified, Validates, Inject;
      ok, done := false, before;
      if |s.codes| != 1 || s.email != Lower(m.account_email) {
        return;
      }
      var read := ReadPlan(env.plan(history), env.now(history));
      Record(read);
      AllowsRead(x, a, done, read);
      done := Allowed(x, a, done, read);
      if read.plan.None? || !Validates(x, a, read.plan.value, read.at) {
        return;
      }
      var operations := Inject(a.operations, s.password, s.codes[0]);
      if !(0 < x.bodySize(operations) <= MAX_BODY) {
        return;
      }
      Send(operations);
      AllowsSend(x, a, done, s);
      done := Allowed(x, a, done, Sent(operations));
      ok := true;
    }

    /** The callback from the second validation on. */
    method AfterExtraction(a: AuthorityFile, m: Manifest, s: Secret, ghost before: History) returns (ok: bool, ghost done: History)
      requires Coherent() && Orderly(x, a, before) && |before| == 7 && before[6].Extracted? && before[6].secret == Some(s)
      requires |a.operations| == 4 && Holds(a.operations[0], "email", Lower(m.account_email))
      modifies `sent, `installed, `history
      ensures before <= done && Orderly(x, a, done) && 7 <= |done| <= 11
      ensures Coherent() && history == old(history) + done[7..]
      ensures forall k :: 7 <= k < |done| ==> !Mints(done[k]) && !done[k].Took? && !done[k].Extracted?
      ensures forall held :: !Continues(x, a, held, done)
      ensures ok <==> done[|done|-1].Delivered? && done[|done|-1].delivery.Some?
    {
      hide Coherent, Orderly, Justified, ValidPlan, UsableSecret, Fits, Filled;
      ok, done := SendFilled(a, m, s, before);
      if !ok {
        return;
      }
      ok := false;
      ghost var sentOff := done;
      var completes := env.completes(history);
      Record(Completed(completes));
      AllowsComplete(x, a, done, completes);
      done := Allowed(x, a, done, Completed(completes));
      if completes {
        var delivery := Deliver();
        AllowsDeliver(x, a, done, delivery);
        done := Allowed(x, a, done, Delivered(delivery));
        ok := delivery.Some?;
      }
      assert done[7..] == sentOff[7..] + done[9..];
    }

    /** The handoff callback. Whoever calls it however often: its acts are orderly, it
        stops only where it must, and unless it got as far as an extraction it has not
        touched the private sources. */
    method OnHandoff(a: AuthorityFile, m: Manifest, references: References) returns (ok: bool, ghost done: History)
      requires SourcesValid() && Coherent()
      modifies `retained, `sent, `installed, `history, local, slack
      ensures SourcesValid() && Coherent()
      ensures history == old(history) + done && Orderly(x, a, done)
      ensures done != [] && done[0].Presented? && done[0].manifest == m && done[0].references == references
      ensures !Continues(x, a, old(retained), done)
      ensures retained == if |done| > 1 then [] else old(retained)
      ensures forall k :: 0 <= k < |done| ==> !Mints(done[k])
      ensures (forall k :: 0 <= k < |done| ==> !done[k].Extracted?) ==> unchanged(local, slack)
      ensures |done| > 6 && done[6].Extracted? && done[6].secret.Some? ==>
                && |old(retained)| == 1 && done[6].source == old(retained)[0]
                && Revealed(done[6].source, done[6].secret.value, old(local.provenance), old(local.seenAt), old(slack.snapshots), local, slack)
      ensures ok <==> done[|done|-1].Delivered? && done[|done|-1].delivery.Some?
    {
      hide SourcesValid, Coherent, Validates, Revealed, Yields, Orderly, Matches, Justified;
      ok := false;
      var c;
      c, done := BeforeExtraction(a, m, references);
      if c.None? {
        return;
      }
      AccountIsReviewed(x, a, m, done[0].now);
      var material := ExtractPrivate(c.value);
      AllowsExtract(x, a, done, c.value, material);
      done := Allowed(x, a, done, Extracted(c.value, material));
      if material.None? {
        return;
      }
      ghost var before := done;
      ok, done := AfterExtraction(a, m, material.value, before);
      assert done == before + done[7..];
    }

    /** The two phases, with the file already admitted: however often discovery and
        broker call back, and whatever they return. `start` is when the broker starts. */
    method RunPhases(a: AuthorityFile, discoveryCalls: nat, brokerCalls: nat) returns (ok: bool, ghost start: nat)
      requires SourcesValid() && Coherent() && history == [] && Orderly(x, a, history)
      modifies `retained, `sent, `installed, `history, local, slack
      ensures SourcesValid() && Coherent() && Orderly(x, a, history)
      ensures start <= |history| && (NoMint(history, start) ==> AtMostOnce(history))
      ensures ok <==> env.discoveryReturns(history[..start]) && env.brokerReturns(history)
    {
      hide SourcesValid, Coherent, Orderly, AtMostOnce, Continues, Revealed, Justified, NoTake, NoMint;
      NothingYet(x, a);
      for i := 0 to discoveryCalls
        invariant SourcesValid() && Coherent() && Orderly(x, a, history) && NoTake(history, 0, |history|)
      {
        ghost var before := history;
        var collected := Collect(env.collectFor(history));
        CollectIsOrderly(x, a, before, history);
      }
      start := |history|;
      ghost var discovered := history;
      assert history[..start] == discovered;
      ok := false;
      if env.discoveryReturns(history) {
        for i := 0 to brokerCalls
          invariant SourcesValid() && Coherent() && Orderly(x, a, history)
          invariant start <= |history| && NoTake(history, 0, start) && history[..start] == discovered
        {
          ghost var before := history;
          match env.call(history)
          case HandOff(m, references) =>
            var handed, done := OnHandoff(a, m, references);
            OrderlyConcat(x, a, before, done);
            NoTakeLater(before, done, start);
          case LateCollect(m) =>
            var collected := Collect(m);
            CollectIsOrderly(x, a, before, history);
        }
        ok := env.brokerReturns(history);
      }
      if NoMint(history, start) {
        CoherentIsFed();
        AtMostOneHandoff(x, a, history, start);
      }
    }

    lemma CoherentIsFed()
      requires Coherent()
      ensures Fed(history) && sent == Sends(history) && installed == Deliveries(history) && Faithful(env, history)
    {}

    /** execute_approved_renewal: whatever discovery and broker do, and whether or not
        they then report success. */
    method ExecuteApprovedRenewal(planId: string, digest: string, keyLength: nat, approved: Option<Manifest>, now: nat,
                                  discoveryCalls: nat, brokerCalls: nat)
      returns (r: Option<string>, ghost start: nat)
      requires SourcesValid()
      modifies `retained, `sent, `installed, `history, local, slack
      ensures SourcesValid() && Coherent() && retained == []
      ensures start <= |history| && (NoMint(history, start) ==> AtMostOnce(history))
      ensures stored.Complete? ==> Orderly(x, stored.file, history)
      ensures !stored.Complete? ==> history == [] && r.None?
      ensures r.Some? <==>
                && stored.Complete? && keyLength == KEY_LENGTH && stored.file.planId == planId && stored.file.manifestSha256 == digest
                && approved.Some? && Validates(x, stored.file, approved.value, now)
                && env.discoveryReturns(history[..start]) && env.brokerReturns(history) && |installed| == 1
      ensures forall k: nat :: k < |history| && history[k].Sent? ==> stored.Complete? && Reviewed(x, stored.file, history, k)
      ensures r.Some? ==> installed == [r.value] && DeliveredBy(x, stored.file, history, r.value)
    {
      hide SourcesValid, Coherent, Orderly, Validates, Reviewed, AtMostOnce, DeliveredBy, NoMint, Justified;
      history, retained, sent, installed, r, start := [], [], [], [], None, 0;
      FreshIsCoherent();
      if !stored.Complete? || keyLength != KEY_LENGTH || stored.file.planId != planId || stored.file.manifestSha256 != digest {
        NothingYet(x, if stored.Complete? then stored.file else AuthorityFile("", "", "", "", "", 0, []));
        return;
      }
      var a := stored.file;
      NothingYet(x, a);
      if approved.None? || !Validates(x, a, approved.value, now) {
        return;
      }
      var ok;
      ok, start := RunPhases(a, discoveryCalls, brokerCalls);
      EverythingSentIsReviewed(x, a, approved.value, now, history);
      CoherentIsFed();
      retained := [];
      EmptiedIsCoherent();
      if ok && |installed| == 1 {
        r := Some(installed[0]);
        assert installed == [installed[0]];
        ExactlyOneDelivery(x, a, history, installed[0]);
      }
    }

    lemma FreshIsCoherent()
      requires history == [] && retained == [] && sent == [] && installed == []
      ensures Coherent()
    {}

    lemma EmptiedIsCoherent()
      requires Fed(history) && sent == Sends(history) && installed == Deliveries(history) && Faithful(env, history) && retained == []
      ensures Coherent()
    {}

    /** The consumer callback: it gets what the one retained capability yields. */
    method OnConsume(references: References) returns (ok: bool)
      requires SourcesValid() && Coherent()
      modifies `retained, `consumed, `history, local, slack
      ensures SourcesValid() && Coherent()
      ensures forall k :: |old(history)| <= k < |history| ==> !Mints(history[k])
      ensures old(history) <= history
      ensures !ok ==> consumed == old(consumed) && (retained == old(retained) || retained == [])
      ensures ok ==>
                && |old(retained)| == 1 && retained == [] && references == PublicReferences(old(retained)[0])
                && |consumed| == |old(consumed)| + 1 && old(consumed) <= consumed
                && Revealed(old(retained)[0], consumed[|old(consumed)|], old(local.provenance), old(local.seenAt), old(slack.snapshots), local, slack)
      ensures ok <==>
                && |old(retained)| == 1 && references == PublicReferences(old(retained)[0])
                && |history| == |old(history)| + 2 && history[|old(history)|+1].Extracted? && history[|old(history)|+1].secret.Some?
      // it refuses only for a reason
      ensures if |old(retained)| != 1 then history == old(history) && retained == old(retained)
              else
                var c := old(retained)[0];
                && retained == []
                && if references != PublicReferences(c) then history == old(history) + [Took(c)]
                   else
                     && |history| == |old(history)| + 2 && history[..|old(history)|+1] == old(history) + [Took(c)]
                     && history[|old(history)|+1].Extracted? && history[|old(history)|+1].source == c
                     && (old(Yields(c, history + [Took(c)])) ==> ok) && (c.FromSlack? && ok ==> old(Yields(c, history + [Took(c)])))
    {
      hide SourcesValid, Coherent, Revealed, Yields;
      if |retained| != 1 {
        return false;
      }
      var c := Take();
      if references != PublicReferences(c) {
        return false;
      }
      assert history == old(history) + [Took(c)];
      var material := ExtractPrivate(c);
      if material.None? {
        return false;
      }
      consumed := consumed + [material.value];
      ok := true;
    }

    /** execute_approved_sources: the consumer is called at most once, unless discovery
        calls back after it has returned. */
    method ExecuteApprovedSources(discoveryCalls: nat, brokerCalls: nat) returns (ghost start: nat)
      requires SourcesValid()
      modifies `retained, `sent, `installed, `consumed, `history, local, slack
      ensures SourcesValid() && Coherent() && retained == []
      ensures start <= |history| && (NoMint(history, start) ==> |consumed| <= 1)
      ensures |consumed| <= Minted(history) && |consumed| <= 1 + Minted(history[start..])
    {
      hide SourcesValid, Coherent, Revealed, Yields, Minted;
      history, retained, sent, installed, consumed := [], [], [], [], [];
      FreshIsCoherent();
      MintedNothing();
      for i := 0 to discoveryCalls
        invariant SourcesValid() && Coherent() && consumed == [] && |retained| <= Minted(history)
      {
        ghost var before := history;
        var collected := Collect(env.collectFor(history));
        MintedStep(before, history[|before|]);
      }
      start := |history|;
      ghost var discovered, late := history, [];
      if env.discoveryReturns(history) {
        late := Consumptions(brokerCalls);
      }
      assert history == discovered + late && history[start..] == late;
      NoneMinted(late);
      CoherentIsFed();
      retained := [];
      EmptiedIsCoherent();
    }

    /** The consumer's callbacks, and discovery's if it calls back late. */
    method Consumptions(brokerCalls: nat) returns (ghost late: History)
      requires SourcesValid() && Coherent() && consumed == [] && |retained| <= Minted(history)
      modifies `retained, `consumed, `history, local, slack
      ensures SourcesValid() && Coherent() && history == old(history) + late
      ensures |consumed| <= Minted(history) && |consumed| <= 1 + Minted(late)
    {
      hide SourcesValid, Coherent, Revealed, Yields, Minted;
      MintedNothing();
      late := [];
      assert history == old(history) + late;
      for i := 0 to brokerCalls
        invariant SourcesValid() && Coherent() && history == old(history) + late
        invariant |consumed| + |retained| <= Minted(history)
        invariant |consumed| + (if |retained| == 1 then 1 else 0) <= 1 + Minted(late)
      {
        ghost var before := history;
        match env.call(history)
        case HandOff(_, references) =>
          var ok := OnConsume(references);
          MintedByConsumption(before, history, late);
          late := late + history[|before|..];
        case LateCollect(m) =>
          var collected := Collect(m);
          MintedStep(before, history[|before|]);
          MintedStep(late, history[|before|]);
          late := late + [history[|before|]];
      }
    }
  }

  lemma MintedNothing()
    ensures Minted([]) == 0
  {}

  /** A consumption discovers nothing. */
  lemma MintedByConsumption(before: History, after: History, late: History)
    requires before <= after && forall k :: |before| <= k < |after| ==> !Mints(after[k])
    ensures Minted(after) == Minted(before) && Minted(late + after[|before|..]) == Minted(late)
    ensures after == before + after[|before|..]
  {
    var more := after[|before|..];
    NoneMinted(more);
    assert after == before + more;
    MintedBy(before, more);
    MintedBy(late, more);
  }

  lemma CollectIsOrderly(x: Codec, a: AuthorityFile, before: History, after: History)
    requires Orderly(x, a, before) && exists minted :: after == before + [Collected(minted)]
    ensures Orderly(x, a, after)
    ensures forall n: nat :: n <= |before| && NoTake(before, 0, n) ==> NoTake(after, 0, n)
    ensures NoTake(before, 0, |before|) ==> NoTake(after, 0, |after|)
  {
    hide Orderly;
    var minted :| after == before + [Collected(minted)];
    OrderlyStep(x, a, before, Collected(minted));
  }

  lemma NoTakeLater(before: History, done: History, n: nat)
    requires n <= |before| && NoTake(before, 0, n)
    ensures NoTake(before + done, 0, n)
  {}

  /** The acts of a callback with one more that is allowed. */
  ghost method Allowed(x: Codec, a: AuthorityFile, done: History, e: Event) returns (longer: History)
    requires Orderly(x, a, done) && Justified(x, a, done + [e], |done|)
    ensures longer == done + [e] && Orderly(x, a, longer)
  {
    OrderlyStep(x, a, done, e);
    longer := done + [e];
  }

  lemma AllowsTake(x: Codec, a: AuthorityFile, done: History, c: Capability)
    requires |done| == 1 && PresentedValidly(x, a, done[0])
    ensures Justified(x, a, done + [Took(c)], 1)
  {}

  lemma AllowsConnect(x: Codec, a: AuthorityFile, done: History, passes: bool)
    requires |done| == 2 && done[0].Presented? && done[1].Took? && Matches(a, done[1].capability, done[0].references)
    ensures Justified(x, a, done + [Connected(passes)], 2)
  {}

  lemma AllowsChallenge(x: Codec, a: AuthorityFile, done: History, proves: bool)
    requires done != [] && done[|done|-1] == Connected(true)
    ensures Justified(x, a, done + [Challenged(proves)], |done|)
  {}

  lemma AllowsRead(x: Codec, a: AuthorityFile, done: History, read: Event)
    requires done != [] && (done[|done|-1] == Challenged(true) || UsableSecret(a, done[|done|-1])) && read.ReadPlan?
    ensures Justified(x, a, done + [read], |done|)
  {}

  lemma AllowsBind(x: Codec, a: AuthorityFile, done: History, binds: bool)
    requires |done| >= 2 && ValidPlan(x, a, done[|done|-1]) && done[|done|-2] == Challenged(true)
    ensures Justified(x, a, done + [Bound(binds)], |done|)
  {}

  lemma AllowsExtract(x: Codec, a: AuthorityFile, done: History, c: Capability, secret: Option<Secret>)
    requires |done| == 6 && done[5] == Bound(true) && done[1] == Took(c)
    ensures Justified(x, a, done + [Extracted(c, secret)], 6)
  {}

  lemma AllowsSend(x: Codec, a: AuthorityFile, done: History, s: Secret)
    requires |done| >= 2 && ValidPlan(x, a, done[|done|-1]) && UsableSecret(a, done[|done|-2]) && done[|done|-2].secret == Some(s)
    requires Fits(x, Filled(a, s))
    ensures Justified(x, a, done + [Sent(Filled(a, s))], |done|)
  {}

  lemma AllowsComplete(x: Codec, a: AuthorityFile, done: History, completes: bool)
    requires done != [] && done[|done|-1].Sent?
    ensures Justified(x, a, done + [Completed(completes)], |done|)
  {}

  lemma AllowsDeliver(x: Codec, a: AuthorityFile, done: History, delivery: Option<string>)
    requires done != [] && done[|done|-1] == Completed(true)
    ensures Justified(x, a, done + [Delivered(delivery)], |done|)
  {}

  lemma Begins(x: Codec, a: AuthorityFile, e: Event)
    requires e.Presented?
    ensures Orderly(x, a, [e])
  {}
}
