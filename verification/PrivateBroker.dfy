/** One approved renewal: discovery and broker call back as often as they like, in any
    order, swallowing whatever they like, and still at most one private handoff
    happens (scripts/private-renewal-coordinator.py, scripts/private-sam-discovery.py). */
module PrivateBroker {
  import opened JsValues
  import opened SlackText
  import opened SlackTimestamp
  import Scan = SlackScan
  import Slack = SlackDiscovery
  import Local = CredentialSlot

  const PASSWORD_SLOT := "PRIVATE_PASSWORD_SLOT"
  const CODE_SLOT := "PRIVATE-CODE-SLOT"
  const MAX_BODY: nat := 262144

  // ---------------------------------------------------------------- the approved plan

  datatype Scope =
    | SlackChannel(team_id: string, channel_id: string, oldest_ts: string, latest_ts: string, max_messages: int, max_pages: int)
    | LocalCredential(store_id: string)
    | OtherScope

  datatype Manifest = Manifest(
    action: string, request_id: string, expires_at: nat, session_name: string, account_email: string, discovery: Scope, rest: string)

  /** One reviewed operation; `envelope` is the part no check below looks into. */
  datatype Step = Step(envelope: string, expected_origin: string, consent_sha256: string, account_scope: string, operation: map<string, string>)

  datatype AuthorityFile = AuthorityFile(
    planId: string, manifestSha256: string, recipeSha256: string, endpoint: string, sessionName: string, expiresAt: nat, operations: seq<Step>)

  /** Digests, encodings and the syntactic checks on URLs, handles and selectors. */
  datatype Codec = Codec(
    manifestSha: Manifest -> string,
    recipeSha: seq<Step> -> string,
    wellFormed: (AuthorityFile, Manifest) -> bool,
    bodySize: seq<Step> -> nat,
    fileSize: AuthorityFile -> nat)

  const KINDS: seq<string> := ["login", "backup_code", "renew", "read_key"]
  const FIELDS: seq<set<string>> := [
    {"kind", "email_selector", "password_selector", "submit_selector", "email", "password"},
    {"kind", "code_selector", "submit_selector", "account_selector", "account_value", "code", "source_scope"},
    {"kind", "submit_selector", "account_selector", "account_value"},
    {"kind", "selector", "account_selector", "account_value"}]

  predicate Holds(step: Step, field: string, value: string) {
    field in step.operation && step.operation[field] == value
  }

  predicate StepValid(a: AuthorityFile, m: Manifest, i: nat)
    requires i < |a.operations| && i < 4
  {
    var step, account := a.operations[i], Lower(m.account_email);
    && step.consent_sha256 == a.manifestSha256
    && step.account_scope == "login.gov:" + account
    && step.expected_origin == (if i < 2 then "https://secure.login.gov" else "https://sam.gov")
    && step.operation.Keys == FIELDS[i] && Holds(step, "kind", KINDS[i])
    && (i > 0 ==> Holds(step, "account_value", account))
  }

  predicate SourceValid(source: string, scope: Scope) {
    match scope
    case SlackChannel(_, channel, oldest, latest, _, _) =>
      && |source| > |channel| && source[..|channel|] == channel && source[|channel|] == ':'
      && (var ts := source[|channel|+1..]; IsTs(ts) && LexLe(oldest, ts) && LexLe(ts, latest))
    case LocalCredential(store) => source == "local_os_credential:" + store
    case OtherScope => false
  }

  /** _validate, at time `now`. */
  predicate Validates(x: Codec, a: AuthorityFile, m: Manifest, now: nat) {
    && m.action == "renew" && a.planId == m.request_id && a.manifestSha256 == x.manifestSha(m)
    && a.expiresAt == m.expires_at && a.expiresAt > now && a.sessionName == m.session_name
    && |a.operations| == 4 && x.recipeSha(a.operations) == a.recipeSha256
    && x.wellFormed(a, m)
    && (forall i: nat :: i < 4 ==> StepValid(a, m, i))
    && Holds(a.operations[0], "email", Lower(m.account_email))
    && Holds(a.operations[0], "password", PASSWORD_SLOT)
    && Holds(a.operations[1], "code", CODE_SLOT)
    && "source_scope" in a.operations[1].operation
    && SourceValid(a.operations[1].operation["source_scope"], m.discovery)
  }

  // ---------------------------------------------------------------- slot injection

  datatype Secret = Secret(email: string, password: string, codes: seq<string>)

  /** The recipe with the two private values filled in. */
  function Inject(ops: seq<Step>, password: string, code: string): (r: seq<Step>)
    requires |ops| >= 2
    ensures |r| == |ops|
  {
    ops[0 := ops[0].(operation := ops[0].operation["password" := password])]
       [1 := ops[1].(operation := ops[1].operation["code" := code])]
  }

  /** What is sent differs from what was reviewed in the two slots and nowhere else:
      putting the slots back gives the reviewed recipe exactly when they were there. */
  lemma SlotsRestore(ops: seq<Step>, password: string, code: string)
    requires |ops| >= 2
    ensures Inject(Inject(ops, password, code), PASSWORD_SLOT, CODE_SLOT) == ops <==>
            Holds(ops[0], "password", PASSWORD_SLOT) && Holds(ops[1], "code", CODE_SLOT)
    ensures Holds(Inject(ops, password, code)[0], "password", password) && Holds(Inject(ops, password, code)[1], "code", code)
    ensures forall i :: 2 <= i < |ops| ==> Inject(ops, password, code)[i] == ops[i]
    ensures Inject(ops, password, code)[0].operation - {"password"} == ops[0].operation - {"password"}
    ensures Inject(ops, password, code)[1].operation - {"code"} == ops[1].operation - {"code"}
  {
    var back := Inject(Inject(ops, password, code), PASSWORD_SLOT, CODE_SLOT);
    assert back[0].operation == ops[0].operation["password" := PASSWORD_SLOT];
    assert back[1].operation == ops[1].operation["code" := CODE_SLOT];
    assert forall i :: 2 <= i < |ops| ==> back[i] == ops[i];
    if Holds(ops[0], "password", PASSWORD_SLOT) && Holds(ops[1], "code", CODE_SLOT) {
      assert back[0] == ops[0] && back[1] == ops[1];
    } else if back == ops {
      assert "password" in back[0].operation && "code" in back[1].operation;
    }
  }

  /** For a validated plan the restored recipe also has the reviewed digest. */
  lemma InjectedRecipeIsReviewed(x: Codec, a: AuthorityFile, m: Manifest, now: nat, s: Secret)
    requires Validates(x, a, m, now) && |s.codes| == 1
    ensures var sent := Inject(a.operations, s.password, s.codes[0]);
            Inject(sent, PASSWORD_SLOT, CODE_SLOT) == a.operations
            && x.recipeSha(Inject(sent, PASSWORD_SLOT, CODE_SLOT)) == a.recipeSha256
  {
    SlotsRestore(a.operations, s.password, s.codes[0]);
  }

  lemma AccountIsReviewed(x: Codec, a: AuthorityFile, m: Manifest, now: nat)
    requires Validates(x, a, m, now)
    ensures |a.operations| == 4 && Holds(a.operations[0], "email", Lower(m.account_email))
  {}

  // ---------------------------------------------------------------- capabilities

  datatype Capability =
    | FromSlack(connection: Slack.Connection, slackAuthority: Scan.Authority, slackResult: Slack.DiscoveryResult)
    | FromLocal(localAuthority: Local.Authority, localResult: Local.LocalDiscoveryResult)

  datatype SourceRef = SlackRef(channel_id: string, message_ts: string) | LocalRef(store_id: string, last_written: nat)

  datatype References = References(credential: SourceRef, backup: SourceRef, messages: nat, pages: nat)

  function PublicReferences(c: Capability): References {
    match c
    case FromSlack(_, _, d) =>
      References(SlackRef(d.channel_id, d.credentialTs), SlackRef(d.channel_id, d.backupTs), d.scannedMessages, d.scannedPages)
    case FromLocal(_, d) =>
      References(LocalRef(d.credentialSource.store_id, d.credentialSource.lastWritten),
                 LocalRef(d.backupCodeSource.store_id, d.backupCodeSource.lastWritten), 0, 0)
  }

  /** private_source_scope of the backup-code source; None where it raises. */
  function SourceScope(c: Capability): Option<string> {
    match c
    case FromSlack(_, _, d) => Some(d.channel_id + ":" + d.backupTs)
    case FromLocal(_, d) =>
      if d.backupCodeSource.store_id == Local.STORE_ID && Local.ValidFiletime(d.backupCodeSource.lastWritten)
      then Some("local_os_credential:" + d.backupCodeSource.store_id) else None
  }

  // ---------------------------------------------------------------- what a run does

  /** What a run did and was answered, act by act. */
  datatype Event =
    | Collected(minted: Option<Capability>)
    | Presented(manifest: Manifest, references: References, now: nat)
    | Took(capability: Capability)
    | Connected(passes: bool)
    | Challenged(proves: bool)
    | ReadPlan(plan: Option<Manifest>, at: nat)
    | Bound(binds: bool)
    | Extracted(source: Capability, secret: Option<Secret>)
    | Sent(operations: seq<Step>)
    | Completed(completes: bool)
    | Delivered(delivery: Option<string>)

  type History = seq<Event>

  /** The references handed in and the source under review are those of the capability. */
  predicate Matches(a: AuthorityFile, c: Capability, references: References) {
    && references == PublicReferences(c)
    && |a.operations| >= 2 && "source_scope" in a.operations[1].operation
    && SourceScope(c) == Some(a.operations[1].operation["source_scope"])
  }

  /** What has been extracted may be sent: one code, and the account under review. */
  predicate Sendable(a: AuthorityFile, s: Secret) {
    |s.codes| == 1 && |a.operations| >= 2 && Holds(a.operations[0], "email", s.email)
  }

  predicate PresentedValidly(x: Codec, a: AuthorityFile, e: Event) {
    e.Presented? && Validates(x, a, e.manifest, e.now)
  }

  predicate ValidPlan(x: Codec, a: AuthorityFile, e: Event) {
    e.ReadPlan? && e.plan.Some? && Validates(x, a, e.plan.value, e.at)
  }

  predicate UsableSecret(a: AuthorityFile, e: Event) {
    e.Extracted? && e.secret.Some? && Sendable(a, e.secret.value)
  }

  predicate Fits(x: Codec, ops: seq<Step>) {
    0 < x.bodySize(ops) <= MAX_BODY
  }

  function Filled(a: AuthorityFile, s: Secret): seq<Step>
    requires Sendable(a, s)
  {
    Inject(a.operations, s.password, s.codes[0])
  }

  /** What must have happened right before event `k` for it to be allowed. */
  predicate Justified(x: Codec, a: AuthorityFile, h: History, k: nat)
    requires k < |h|
  {
    match h[k]
    case Collected(_) => true
    case Presented(_, _, _) => true
    case Took(_) => k >= 1 && PresentedValidly(x, a, h[k-1])
    case Connected(_) => k >= 2 && h[k-1].Took? && h[k-2].Presented? && Matches(a, h[k-1].capability, h[k-2].references)
    case Challenged(_) => k >= 1 && h[k-1] == Connected(true)
    case ReadPlan(_, _) => k >= 1 && (h[k-1] == Challenged(true) || UsableSecret(a, h[k-1]))
    case Bound(_) => k >= 2 && ValidPlan(x, a, h[k-1]) && h[k-2] == Challenged(true)
    case Extracted(c, _) => k >= 5 && h[k-1] == Bound(true) && h[k-5] == Took(c)
    case Sent(ops) =>
      && k >= 2 && ValidPlan(x, a, h[k-1]) && UsableSecret(a, h[k-2])
      && ops == Filled(a, h[k-2].secret.value) && Fits(x, ops)
    case Completed(_) => k >= 1 && h[k-1].Sent?
    case Delivered(_) => k >= 1 && h[k-1] == Completed(true)
  }

  /** Every act of the run was allowed when it happened. */
  ghost predicate Orderly(x: Codec, a: AuthorityFile, h: History) {
    forall k: nat :: k < |h| ==> Justified(x, a, h, k)
  }

  lemma JustifiedLater(x: Codec, a: AuthorityFile, h: History, done: History, k: nat)
    requires k < |done| && Justified(x, a, done, k)
    ensures Justified(x, a, h + done, |h| + k)
  {
    hide Validates, Matches, Sendable, Fits;
    var all := h + done;
    assert forall i :: 0 <= i < |done| ==> all[|h| + i] == done[i];
    assert k >= 1 ==> all[|h| + k - 1] == done[k-1];
    assert k >= 2 ==> all[|h| + k - 2] == done[k-2];
    assert k >= 5 ==> all[|h| + k - 5] == done[k-5];
  }

  lemma JustifiedEarlier(x: Codec, a: AuthorityFile, h: History, done: History, k: nat)
    requires k < |h| && Justified(x, a, h, k)
    ensures Justified(x, a, h + done, k)
  {
    hide Validates, Matches, Sendable, Fits;
    assert forall i :: 0 <= i < |h| ==> (h + done)[i] == h[i];
  }

  /** Orderly acts after an orderly run. */
  lemma OrderlyConcat(x: Codec, a: AuthorityFile, h: History, done: History)
    requires Orderly(x, a, h) && Orderly(x, a, done)
    ensures Orderly(x, a, h + done)
  {
    hide Justified;
    forall k: nat | k < |h + done| ensures Justified(x, a, h + done, k) {
      if k < |h| {
        JustifiedEarlier(x, a, h, done, k);
      } else {
        JustifiedLater(x, a, h, done, k - |h|);
      }
    }
  }

  lemma OrderlyStep(x: Codec, a: AuthorityFile, done: History, e: Event)
    requires Orderly(x, a, done) && Justified(x, a, done + [e], |done|)
    ensures Orderly(x, a, done + [e])
  {
    hide Justified;
    forall k: nat | k < |done + [e]| ensures Justified(x, a, done + [e], k) {
      if k < |done| {
        JustifiedEarlier(x, a, done, [e], k);
      }
    }
  }

  /** Whether the callback whose acts so far are `done` has a next step to make. */
  predicate Continues(x: Codec, a: AuthorityFile, held: seq<Capability>, done: History)
    requires done != []
  {
    var last := done[|done|-1];
    match last
    case Collected(_) => false
    case Presented(_, _, _) => |held| == 1 && PresentedValidly(x, a, last)
    case Took(c) => done[0].Presented? && Matches(a, c, done[0].references)
    case Connected(passes) => passes
    case Challenged(proves) => proves
    case ReadPlan(_, _) =>
      && ValidPlan(x, a, last)
      && (|done| >= 2 && UsableSecret(a, done[|done|-2]) ==> Fits(x, Filled(a, done[|done|-2].secret.value)))
    case Bound(binds) => binds
    case Extracted(_, _) => UsableSecret(a, last)
    case Sent(_) => true
    case Completed(completes) => completes
    case Delivered(_) => false
  }

  // ---------------------------------------------------------------- once

  ghost predicate NoTake(h: History, lo: nat, hi: nat)
    requires hi <= |h|
  {
    forall k :: lo <= k < hi ==> !h[k].Took?
  }

  predicate Mints(e: Event) {
    e.Collected? && e.minted.Some?
  }

  ghost predicate FedBy(h: History, c: nat, j: nat)
    requires j <= |h|
  {
    c < j && Mints(h[c]) && NoTake(h, c + 1, j)
  }

  /** Every take uses up a discovery of its own. */
  ghost predicate Fed(h: History) {
    forall j :: 0 <= j < |h| && h[j].Took? ==> exists c: nat :: FedBy(h, c, j)
  }

  ghost predicate Stocked(h: History, retained: seq<Capability>) {
    retained != [] ==> exists c: nat :: FedBy(h, c, |h|)
  }

  lemma FedLater(h: History, c: nat, j: nat, e: Event)
    requires j <= |h| && FedBy(h, c, j)
    ensures FedBy(h + [e], c, j) && (j == |h| && !e.Took? ==> FedBy(h + [e], c, |h| + 1))
  {}

  /** One more act: a take needs stock and leaves none, a discovery brings stock. */
  lemma FedStep(h: History, retained: seq<Capability>, e: Event, left: seq<Capability>)
    requires Fed(h) && Stocked(h, retained)
    requires if e.Took? then retained != [] && left == [] else left == retained || Mints(e)
    ensures Fed(h + [e]) && Stocked(h + [e], left)
  {
    var longer := h + [e];
    forall j | 0 <= j < |longer| && longer[j].Took? ensures exists c: nat :: FedBy(longer, c, j) {
      var c: nat :| FedBy(h, c, j);
      FedLater(h, c, j, e);
    }
    if left != [] {
      if Mints(e) {
        assert FedBy(longer, |h|, |longer|);
      } else {
        var c: nat :| FedBy(h, c, |h|);
        FedLater(h, c, |h|, e);
      }
    }
  }

  ghost predicate NoMint(h: History, start: nat) {
    forall k :: start <= k < |h| ==> !Mints(h[k])
  }

  ghost predicate AtMostOnce(h: History) {
    && (forall i, j :: 0 <= i < j < |h| ==> !(h[i].Took? && h[j].Took?))
    && (forall i, j :: 0 <= i < j < |h| ==> !(h[i].Extracted? && h[j].Extracted?))
    && (forall i, j :: 0 <= i < j < |h| ==> !(h[i].Sent? && h[j].Sent?))
    && (forall i, j :: 0 <= i < j < |h| ==> !(h[i].Delivered? && h[j].Delivered?))
  }

  /** In general, between two takes there is a discovery. */
  lemma MintedBetween(h: History, i: nat, j: nat)
    requires Fed(h) && i < j < |h| && h[i].Took? && h[j].Took?
    ensures exists c :: i < c < j && Mints(h[c])
  {
    var c: nat :| FedBy(h, c, j);
  }

  /** A send comes two acts after its extraction, a delivery four, and an extraction
      five after its take. */
  lemma TakenBefore(x: Codec, a: AuthorityFile, h: History, k: nat) returns (back: nat)
    requires Orderly(x, a, h) && k < |h| && (h[k].Extracted? || h[k].Sent? || h[k].Delivered?)
    ensures back == (if h[k].Extracted? then 5 else if h[k].Sent? then 7 else 9)
    ensures back <= k && h[k-back].Took?
  {
    hide Validates, Matches, Sendable, Fits;
    assert Justified(x, a, h, k);
    if h[k].Extracted? {
      back := 5;
    } else if h[k].Sent? {
      assert Justified(x, a, h, k - 2);
      back := 7;
    } else {
      assert Justified(x, a, h, k - 1) && Justified(x, a, h, k - 2) && Justified(x, a, h, k - 4);
      back := 9;
    }
  }

  /** When discovery is over before the broker starts, everything private happens at
      most once. */
  lemma AtMostOneHandoff(x: Codec, a: AuthorityFile, h: History, start: nat)
    requires Fed(h) && Orderly(x, a, h) && start <= |h|
    requires NoTake(h, 0, start) && NoMint(h, start)
    ensures AtMostOnce(h)
  {
    hide Orderly;
    forall i, j | 0 <= i < j < |h| ensures !(h[i].Took? && h[j].Took?) {
      if h[i].Took? && h[j].Took? {
        MintedBetween(h, i, j);
      }
    }
    forall i, j | 0 <= i < j < |h|
      ensures !(h[i].Extracted? && h[j].Extracted?) && !(h[i].Sent? && h[j].Sent?) && !(h[i].Delivered? && h[j].Delivered?)
    {
      if (h[i].Extracted? && h[j].Extracted?) || (h[i].Sent? && h[j].Sent?) || (h[i].Delivered? && h[j].Delivered?) {
        var m := TakenBefore(x, a, h, i);
        var n := TakenBefore(x, a, h, j);
      }
    }
  }

  /** It takes that assumption: under any valid plan a discovery that calls back late
      allows a second take, in a run that is otherwise in order. */
  lemma LateDiscoveryAllowsTwo(x: Codec, a: AuthorityFile, m: Manifest, now: nat, references: References, first: Capability, second: Capability)
    requires Validates(x, a, m, now)
    ensures var h := [
              Collected(Some(first)), Presented(m, references, now), Took(first),
              Collected(Some(second)), Presented(m, references, now), Took(second)];
            Fed(h) && Orderly(x, a, h) && NoTake(h, 0, 1) && !NoMint(h, 1) && !AtMostOnce(h)
  {
    hide Validates, Matches, Sendable, Fits;
    var h := [
      Collected(Some(first)), Presented(m, references, now), Took(first),
      Collected(Some(second)), Presented(m, references, now), Took(second)];
    forall j | 0 <= j < |h| && h[j].Took? ensures exists c: nat :: FedBy(h, c, j) {
      assert FedBy(h, if j == 2 then 0 else 3, j);
    }
    assert h[2].Took? && h[5].Took? && Mints(h[3]);
  }

  // ---------------------------------------------------------------- what came of it

  /** What has been installed so far, in order. */
  function Deliveries(h: History): seq<string> {
    if h == [] then []
    else
      var prior, last := Deliveries(h[..|h|-1]), h[|h|-1];
      if last.Delivered? && last.delivery.Some? then prior + [last.delivery.value] else prior
  }

  /** What has gone over the wire so far, in order. */
  function Sends(h: History): seq<seq<Step>> {
    if h == [] then []
    else
      var prior, last := Sends(h[..|h|-1]), h[|h|-1];
      if last.Sent? then prior + [last.operations] else prior
  }

  lemma OutcomeStep(h: History, e: Event)
    ensures Deliveries(h + [e]) == if e.Delivered? && e.delivery.Some? then Deliveries(h) + [e.delivery.value] else Deliveries(h)
    ensures Sends(h + [e]) == if e.Sent? then Sends(h) + [e.operations] else Sends(h)
  {
    assert (h + [e])[..|h|] == h;
  }

  lemma {:induction false} DeliveredOnce(h: History, v: string)
    requires Deliveries(h) == [v]
    ensures exists k :: 0 <= k < |h| && h[k] == Delivered(Some(v))
    ensures forall j, k :: 0 <= j < |h| && 0 <= k < |h| && h[j].Delivered? && h[j].delivery.Some? && h[k].Delivered? && h[k].delivery.Some? ==> j == k
  {
    var prior, last := h[..|h|-1], h[|h|-1];
    if last.Delivered? && last.delivery.Some? {
      var all := Deliveries(prior) + [last.delivery.value];
      assert all == [v] && all[|all|-1] == last.delivery.value;
      NothingDelivered(prior);
      assert h[|h|-1] == Delivered(Some(v));
    } else {
      DeliveredOnce(prior, v);
      var k :| 0 <= k < |prior| && prior[k] == Delivered(Some(v));
      assert h[k] == Delivered(Some(v));
      assert forall j :: 0 <= j < |prior| ==> h[j] == prior[j];
    }
  }

  lemma {:induction false} NothingDelivered(h: History)
    requires Deliveries(h) == []
    ensures forall k :: 0 <= k < |h| ==> !(h[k].Delivered? && h[k].delivery.Some?)
  {
    if h != [] {
      NothingDelivered(h[..|h|-1]);
      assert h == h[..|h|-1] + [h[|h|-1]];
    }
  }

  /** What went out at `k` is the reviewed recipe with the two slots filled from the
      secret that was extracted two acts before. */
  ghost predicate Reviewed(x: Codec, a: AuthorityFile, h: History, k: nat)
    requires k < |h| && h[k].Sent?
  {
    var sent := h[k].operations;
    && |sent| >= 2
    && Inject(sent, PASSWORD_SLOT, CODE_SLOT) == a.operations
    && x.recipeSha(Inject(sent, PASSWORD_SLOT, CODE_SLOT)) == a.recipeSha256
    && k >= 2 && UsableSecret(a, h[k-2])
    && Holds(sent[0], "email", h[k-2].secret.value.email)
    && Holds(sent[0], "password", h[k-2].secret.value.password)
    && Holds(sent[1], "code", h[k-2].secret.value.codes[0])
  }

  lemma EverythingSentIsReviewed(x: Codec, a: AuthorityFile, m: Manifest, now: nat, h: History)
    requires Validates(x, a, m, now) && Orderly(x, a, h)
    ensures forall k: nat :: k < |h| && h[k].Sent? ==> Reviewed(x, a, h, k)
  {
    hide Validates;
    forall k: nat | k < |h| && h[k].Sent? ensures Reviewed(x, a, h, k) {
      assert Justified(x, a, h, k);
      var s := h[k-2].secret.value;
      InjectedRecipeIsReviewed(x, a, m, now, s);
      SlotsRestore(a.operations, s.password, s.codes[0]);
    }
  }

  /** The acts that end in the delivery at `k`, from the take on. */
  ghost predicate WholeHandoff(x: Codec, a: AuthorityFile, h: History, k: nat, delivery: string) {
    && 10 <= k < |h| && h[k] == Delivered(Some(delivery)) && h[k-1] == Completed(true)
    && h[k-2].Sent? && ValidPlan(x, a, h[k-3]) && UsableSecret(a, h[k-4]) && h[k-2].operations == Filled(a, h[k-4].secret.value)
    && h[k-5] == Bound(true) && ValidPlan(x, a, h[k-6]) && h[k-7] == Challenged(true) && h[k-8] == Connected(true)
    && h[k-9] == Took(h[k-4].source) && PresentedValidly(x, a, h[k-10]) && Matches(a, h[k-4].source, h[k-10].references)
  }

  /** One installation was made, and it ends one whole handoff. */
  ghost predicate DeliveredBy(x: Codec, a: AuthorityFile, h: History, delivery: string) {
    && (exists k: nat :: WholeHandoff(x, a, h, k, delivery))
    && (forall j, k :: 0 <= j < |h| && 0 <= k < |h| && h[j].Delivered? && h[j].delivery.Some? && h[k].Delivered? && h[k].delivery.Some? ==> j == k)
  }

  lemma DeliveryIsWhole(x: Codec, a: AuthorityFile, h: History, k: nat, delivery: string)
    requires Orderly(x, a, h) && k < |h| && h[k] == Delivered(Some(delivery))
    ensures WholeHandoff(x, a, h, k, delivery)
  {
    hide Validates, Matches, Sendable, Fits, Filled;
    assert Justified(x, a, h, k);
    assert Justified(x, a, h, k - 1);
    assert Justified(x, a, h, k - 2);
    assert Justified(x, a, h, k - 4);
    assert Justified(x, a, h, k - 5);
    assert Justified(x, a, h, k - 7);
    assert Justified(x, a, h, k - 8);
    assert Justified(x, a, h, k - 9);
  }

  lemma ExactlyOneDelivery(x: Codec, a: AuthorityFile, h: History, delivery: string)
    requires Orderly(x, a, h) && Deliveries(h) == [delivery]
    ensures DeliveredBy(x, a, h, delivery)
  {
    hide Orderly, WholeHandoff;
    DeliveredOnce(h, delivery);
    var k :| 0 <= k < |h| && h[k] == Delivered(Some(delivery));
    DeliveryIsWhole(x, a, h, k, delivery);
  }

  lemma NothingYet(x: Codec, a: AuthorityFile)
    ensures Orderly(x, a, []) && Fed([]) && Stocked([], []) && AtMostOnce([]) && NoTake([], 0, 0)
    ensures Deliveries([]) == [] && Sends([]) == []
  {}

  /** _receive: exactly the next `size` bytes of what the peer sends, in order and
      without taking a byte too many, or nothing. `timesOut` is the receive timeout. */
  method ReceiveExactly(incoming: seq<Local.Byte>, size: nat, amount: nat -> nat, elapsed: nat -> nat, timesOut: nat -> bool, patience: nat)
    returns (r: Option<seq<Local.Byte>>, taken: nat)
    ensures taken <= size && taken <= |incoming|
    ensures r.Some? ==> taken == size && r.value == incoming[..size]
    ensures (forall n :: elapsed(n) == 0 && !timesOut(n)) && patience > 0 ==> (r.Some? <==> size <= |incoming|)
  {
    var result: seq<Local.Byte> := [];
    var clock, n := 0, 0;
    taken := 0;
    while |result| < size
      invariant taken == |result| <= size && taken <= |incoming| && result == incoming[..taken]
      invariant (forall n :: elapsed(n) == 0 && !timesOut(n)) ==> clock == 0
      decreases size - |result|
    {
      if clock >= patience {
        return None, taken;
      }
      clock := clock + elapsed(n);
      if timesOut(n) {
        return None, taken;
      }
      var available := |incoming| - taken;
      var wanted := size - |result|;
      var count := if amount(n) == 0 then 1 else amount(n);
      var part := incoming[taken..taken + (if count <= wanted && count <= available then count else if wanted <= available then wanted else available)];
      if part == [] {
        return None, taken;
      }
      result, taken, n := result + part, taken + |part|, n + 1;
    }
    r := Some(result);
  }
}
