/** Discovery and one-shot extraction over one process-local provenance table
    (scripts/private-slack-discovery.py:57-100, 215-374). */
module SlackDiscovery {
  import opened JsValues
  import opened SlackText
  import opened SlackTimestamp
  import opened SlackMaterial
  import opened SlackScan

  /** `valid` is the verdict of the connection file's own validation. */
  datatype Connection = Connection(valid: bool, team_id: string, channel_id: string, bot_id: string, scopes: set<string>)

  /** What the workspace answered about the token. */
  datatype Identity = Identity(team_id: string, bot_id: string, scopes: set<string>)

  datatype Provenance = Provenance(authority: Authority, bot_id: string, scopes: set<string>, snapshots: map<string, Message>)

  datatype PrivateMaterial = PrivateMaterial(email: string, password: string, backup_codes: seq<string>)

  /** A discovery result is its identity: two results with equal fields are still two. */
  class DiscoveryResult {
    const channel_id: string
    const credentialTs: string
    const backupTs: string
    const scannedMessages: nat
    const scannedPages: nat

    constructor (channel_id: string, o: Outcome)
      ensures this.channel_id == channel_id && credentialTs == o.credentialTs && backupTs == o.backupTs
      ensures scannedMessages == o.messages && scannedPages == o.pages
    {
      this.channel_id := channel_id;
      credentialTs, backupTs, scannedMessages, scannedPages := o.credentialTs, o.backupTs, o.messages, o.pages;
    }
  }

  /** The checks discovery makes before reading any history. */
  predicate Admitted(c: Connection, a: Authority, probe: Option<Identity>) {
    && ValidAuthority(a) && c.valid
    && c.team_id == a.team_id && c.channel_id == a.channel_id
    && probe.Some? && probe.value.team_id == a.team_id && probe.value.bot_id == c.bot_id && probe.value.scopes == c.scopes
  }

  function Lenient(read: string -> Text, a: Authority, m: Message): Result<Material, SlackError> {
    if m.Message? && m.body.Some? then MaterialOf(read(m.body.value), a.account_email, false) else Err(InvalidMessage)
  }

  /** The table entry holds the very messages that were classified at discovery. */
  predicate Provenanced(read: string -> Text, channel: string, credentialTs: string, backupTs: string, p: Provenance) {
    && ValidAuthority(p.authority) && channel == p.authority.channel_id
    && credentialTs in p.snapshots && InWindow(p.authority, credentialTs)
    && backupTs in p.snapshots && InWindow(p.authority, backupTs)
    && (var m := Lenient(read, p.authority, p.snapshots[credentialTs]); m.Ok? && m.value.password.Some? && m.value.password.value != "")
    && (var m := Lenient(read, p.authority, p.snapshots[backupTs]); m.Ok? && m.value.backups != [])
  }

  /** Either a refusal with one of the shared diagnostics, or the emptiness check
      that follows the strict parses (its own diagnostic is that of SourceChanged). */
  datatype ExtractError = Refused(reason: SlackError) | EmptyAfterParse

  /** The checks extraction makes before refetching anything. */
  predicate MayExtract(c: Connection, a: Authority, p: Provenance, probe: Option<Identity>) {
    && a == p.authority && Admitted(c, a, probe)
    && c.bot_id == p.bot_id && c.scopes == p.scopes
  }

  /** The source still serves, alone, exactly the message snapshotted at discovery. */
  predicate Refetched(fetch: string -> Result<Page, SlackError>, ts: string, p: Provenance) {
    ts in p.snapshots && fetch(ts).Ok? && fetch(ts).value.messages == Some([p.snapshots[ts]])
  }

  function BodyText(read: string -> Text, m: Message): Text
    requires m.Message?
  {
    if m.body.Some? then read(m.body.value) else NotText
  }

  /** The source still serves the snapshot as a complete, final answer of the right
      channel, and it parses strictly. */
  predicate Servable(read: string -> Text, fetch: string -> Result<Page, SlackError>, ts: string, a: Authority, snapshot: Message) {
    && snapshot.Message? && snapshot.ts == Some(ts)
    && fetch(ts).Ok?
    && (var page := fetch(ts).value;
        && page.hasMore == Value(false) && !page.limited && (page.cursor.Last? || page.cursor == Next(""))
        && (page.channel.Undefined? || page.channel == Value(a.channel_id))
        && page.messages == Some([snapshot]))
    && MaterialOf(BodyText(read, snapshot), a.account_email, true).Ok?
  }

  /** The password and the codes are what lenient parsing found at discovery. */
  ghost predicate DiscoveredMaterial(read: string -> Text, d: DiscoveryResult, p: Provenance, password: string, backups: seq<string>) {
    && d.credentialTs in p.snapshots && d.backupTs in p.snapshots
    && (var m := Lenient(read, p.authority, p.snapshots[d.credentialTs]); m.Ok? && m.value.password == Some(password))
    && (var m := Lenient(read, p.authority, p.snapshots[d.backupTs]); m.Ok? && m.value.backups == backups)
    && password != "" && backups != []
  }

  /** Sources that passed the provenance table at discovery cannot parse to nothing now. */
  lemma SourcesAreUsable(read: string -> Text, d: DiscoveryResult, p: Provenance, password: Option<string>, backups: seq<string>)
    requires Provenanced(read, d.channel_id, d.credentialTs, d.backupTs, p)
    requires Lenient(read, p.authority, p.snapshots[d.credentialTs]).Ok? && Lenient(read, p.authority, p.snapshots[d.backupTs]).Ok?
    requires Lenient(read, p.authority, p.snapshots[d.credentialTs]).value.password == password
    requires Lenient(read, p.authority, p.snapshots[d.backupTs]).value.backups == backups
    ensures password.Some? && DiscoveredMaterial(read, d, p, password.value, backups)
    ensures password.value != "" && backups != []
  {
    hide Lenient, ValidAuthority, InWindow;
  }

  lemma ProvenancedSources(read: string -> Text, d: DiscoveryResult, p: Provenance)
    requires Provenanced(read, d.channel_id, d.credentialTs, d.backupTs, p)
    ensures d.channel_id == p.authority.channel_id
    ensures d.credentialTs in p.snapshots && InWindow(p.authority, d.credentialTs)
    ensures d.backupTs in p.snapshots && InWindow(p.authority, d.backupTs)
  {
    hide Lenient, InWindow, ValidAuthority;
  }

  lemma AcceptedIsProvenanced(t: Transport, a: Authority, ms: seq<Message>, m: Message, b: Message, p: Provenance)
    requires FlatAccepts(t, a, ms, m, b) && ValidAuthority(a) && p.authority == a
    requires m.Message? && b.Message? && m.ts.Some? && b.ts.Some?
    requires p.snapshots == map[m.ts.value := m, b.ts.value := b]
    ensures Provenanced(t.read, a.channel_id, m.ts.value, b.ts.value, p)
  {
    hide ScanFrom, Conclude, ValidAuthority, LexLe, IsTs, AllAdmissible;
    assert IsCredential(t, a, m) && IsBackup(t, a, b);
    if m.ts.value == b.ts.value {
      SameStampSameMessage(t, a, ms, m, b);
    }
  }

  /** How many messages the pages answered so far have brought. */
  function Received(t: Transport, log: seq<Request>): nat {
    if log == [] then 0
    else
      var last := |log| - 1;
      var page := t.fetch(last, log[last]);
      Received(t, log[..last]) + if page.Ok? && page.value.messages.Some? then |page.value.messages.value| else 0
  }

  /** Every request asks for as much as the page limit and the message budget leave. */
  ghost predicate LimitsExact(t: Transport, a: Authority, log: seq<Request>) {
    forall i :: 0 <= i < |log| ==> 1 <= log[i].limit == Min(PAGE_LIMIT, a.max_messages - Received(t, log[..i]))
  }

  ghost predicate CursorsDistinct(log: seq<Request>) {
    forall i, j :: 0 <= i < j < |log| ==> log[i].cursor != log[j].cursor
  }

  /** `cursor` has not been requested, and all that were requested are known. */
  ghost predicate CursorIsNext(log: seq<Request>, cursors: set<string>, cursor: string) {
    && CursorsDistinct(log) && (cursor == "" || cursor in cursors)
    && forall i :: 0 <= i < |log| ==> log[i].cursor != cursor && (log[i].cursor == "" || log[i].cursor in cursors)
  }

  lemma CursorStep(log: seq<Request>, cursors: set<string>, cursor: string, limit: int)
    requires CursorIsNext(log, cursors, cursor)
    ensures CursorsDistinct(log + [Request(cursor, limit)])
    ensures forall next :: next != "" && next !in cursors ==> CursorIsNext(log + [Request(cursor, limit)], cursors + {next}, next)
  {}

  lemma LimitStep(t: Transport, a: Authority, log: seq<Request>, q: Request)
    requires LimitsExact(t, a, log) && 1 <= q.limit == Min(PAGE_LIMIT, a.max_messages - Received(t, log))
    ensures LimitsExact(t, a, log + [q])
  {
    hide Received;
    assert (log + [q])[..|log|] == log && forall i :: 0 <= i < |log| ==> (log + [q])[..i] == log[..i];
  }

  /** The paged loop of discover. `log` is the requests it sends. */
  method ScanHistory(t: Transport, a: Authority) returns (r: Result<(Scan, nat), SlackError>, log: seq<Request>)
    requires ValidAuthority(a)
    ensures r == Paged(t, a, 0, "", {}, NO_MESSAGES)
    ensures |log| <= a.max_pages && (r.Ok? ==> |log| == r.value.1)
    ensures LimitsExact(t, a, log) && CursorsDistinct(log)
  {
    hide LimitsExact, CursorsDistinct, CursorIsNext, Received, ScanMessages, PageError, NextCursor;
    var cursors: set<string>, cursor, pages := {}, "", 0;
    var state := NO_MESSAGES;
    log := [];
    NothingRequested(t, a);
    while true
      invariant 0 <= pages == |log| <= a.max_pages
      invariant Paged(t, a, 0, "", {}, NO_MESSAGES) == Paged(t, a, pages, cursor, cursors, state)
      invariant state.count == Received(t, log) && LimitsExact(t, a, log)
      invariant CursorIsNext(log, cursors, cursor) && CursorsDistinct(log)
      decreases a.max_pages - pages
    {
      if pages >= a.max_pages || state.count >= a.max_messages || t.expired(pages) {
        return Err(Incomplete), log;
      }
      var limit := Min(PAGE_LIMIT, a.max_messages - state.count);
      var fetched := t.fetch(pages, Request(cursor, limit));
      CursorStep(log, cursors, cursor, limit);
      LimitStep(t, a, log, Request(cursor, limit));
      ReceivedStep(t, log, Request(cursor, limit));
      log := log + [Request(cursor, limit)];
      if fetched.Err? {
        return Err(fetched.error), log;
      }
      var page := fetched.value;
      var problem := PageError(a, page, limit);
      if problem.Some? {
        return Err(problem.value), log;
      }
      PageErrorCovers(a, page, limit);
      var scanned := InspectMessages(t, a, state, page.messages.value);
      if scanned.Err? {
        return Err(scanned.error), log;
      }
      ScanCounts(t, a, state, page.messages.value);
      state := scanned.value;
      pages := pages + 1;
      var next := NextCursor(page, cursors);
      if next.Err? {
        return Err(next.error), log;
      }
      if next.value.None? {
        return Ok((state, pages)), log;
      }
      NextCursorIsFresh(page, cursors);
      cursors := cursors + {next.value.value};
      cursor := next.value.value;
    }
  }

  lemma NothingRequested(t: Transport, a: Authority)
    ensures Received(t, []) == 0 && LimitsExact(t, a, []) && CursorIsNext([], {}, "")
    ensures CursorsDistinct([])
  {}

  lemma ReceivedStep(t: Transport, log: seq<Request>, q: Request)
    ensures var page := t.fetch(|log|, q);
            Received(t, log + [q]) == Received(t, log) + if page.Ok? && page.value.messages.Some? then |page.value.messages.value| else 0
  {
    assert (log + [q])[..|log|] == log;
  }

  lemma {:induction false} ScanCounts(t: Transport, a: Authority, s: Scan, ms: seq<Message>)
    requires ScanMessages(t, a, s, ms).Ok?
    ensures ScanMessages(t, a, s, ms).value.count == s.count + |ms|
    decreases |ms|
  {
    if ms != [] {
      CountedMessage(t, a, s, ms[0]);
      ScanCounts(t, a, ScanMessage(t, a, s, ms[0]).value, ms[1..]);
    }
  }

  lemma CountedMessage(t: Transport, a: Authority, s: Scan, m: Message)
    requires ScanMessage(t, a, s, m).Ok?
    ensures ScanMessage(t, a, s, m).value.count == s.count + 1
  {}

  /** The message loop of one page. */
  method InspectMessages(t: Transport, a: Authority, start: Scan, messages: seq<Message>) returns (r: Result<Scan, SlackError>)
    ensures r == ScanMessages(t, a, start, messages)
  {
    hide Classify, IsTs, InWindow;
    var seen, credentials, backups, snapshots, count := start.seen, start.credentials, start.backups, start.snapshots, start.count;
    assert messages[0..] == messages;
    for i := 0 to |messages|
      invariant ScanMessages(t, a, start, messages) == ScanMessages(t, a, Scan(seen, credentials, backups, snapshots, count), messages[i..])
    {
      var message := messages[i];
      assert messages[i..][0] == message && messages[i..][1..] == messages[i+1..];
      if message.NotObject? || message.ts.None? || !IsTs(message.ts.value) || message.ts.value in seen || !InWindow(a, message.ts.value) {
        return Err(InvalidMessage);
      }
      var ts := message.ts.value;
      if message.replies.None? || message.replies.value < 0 {
        return Err(InvalidMessage);
      }
      if message.replies.value != 0 {
        return Err(UninspectedThread);
      }
      var verdict := Classify(TextOf(t, message), a.account_email);
      if verdict.Err? {
        return Err(verdict.error);
      }
      var (credential, backup) := verdict.value;
      if credential {
        credentials := credentials + [ts];
      }
      if backup {
        backups := backups + [ts];
      }
      if |credentials| > 1 || |backups| > 1 {
        return Err(AmbiguousCandidates);
      }
      if credential || backup {
        snapshots := snapshots[ts := message];
      }
      seen := seen + {ts};
      count := count + 1;
    }
    assert messages[|messages|..] == [];
    r := Ok(Scan(seen, credentials, backups, snapshots, count));
  }

  class PrivateSlack {
    const read: string -> Text
    /** The process-local provenance table, keyed by result identity. */
    var snapshots: map<DiscoveryResult, Provenance>
    /** Results whose capability has been spent. */
    ghost var consumed: set<DiscoveryResult>

    ghost predicate Valid()
      reads this
    {
      && snapshots.Keys !! consumed
      && forall d :: d in snapshots ==> Provenanced(read, d.channel_id, d.credentialTs, d.backupTs, snapshots[d])
    }

    constructor (read: string -> Text)
      ensures Valid() && this.read == read && snapshots == map[] && consumed == {}
    {
      this.read := read;
      snapshots, consumed := map[], {};
    }

    /** discover: mints one capability on success, and otherwise leaves the table alone. */
    method Discover(c: Connection, a: Authority, probe: Option<Identity>, t: Transport) returns (r: Result<DiscoveryResult, SlackError>)
      requires Valid() && t.read == read
      modifies this
      ensures Valid() && consumed == old(consumed)
      ensures r.Ok? <==> Admitted(c, a, probe) && Discovered(t, a).Ok?
      ensures r.Err? ==> snapshots == old(snapshots)
      ensures r.Ok? ==>
                && fresh(r.value) && r.value.channel_id == a.channel_id
                && var o := Discovered(t, a).value;
                   && r.value.credentialTs == o.credentialTs && r.value.backupTs == o.backupTs
                   && r.value.scannedMessages == o.messages && r.value.scannedPages == o.pages
                   && snapshots == old(snapshots)[r.value := Provenance(a, c.bot_id, c.scopes, o.snapshots)]
    {
      hide ValidAuthority, Provenanced, Paged;
      if !ValidAuthority(a) {
        return Err(InvalidAuthority);
      }
      if !c.valid {
        return Err(Failed);
      }
      if c.team_id != a.team_id || c.channel_id != a.channel_id {
        return Err(AuthorityMismatch);
      }
      if probe.None? {
        return Err(Failed);
      }
      if probe.value.team_id != a.team_id || probe.value.bot_id != c.bot_id {
        return Err(AuthorityMismatch);
      }
      if probe.value.scopes != c.scopes {
        return Err(ScopeMismatch);
      }
      var scanned, log := ScanHistory(t, a);
      if scanned.Err? {
        return Err(scanned.error);
      }
      var (state, pages) := scanned.value;
      if |state.credentials| != 1 || |state.backups| != 1 {
        return Err(CandidatesNotFound);
      }
      var o := Outcome(state.credentials[0], state.backups[0], state.count, pages, state.snapshots);
      var result := new DiscoveryResult(a.channel_id, o);
      ghost var p := Provenance(a, c.bot_id, c.scopes, o.snapshots);
      DiscoveredIsProvenanced(t, a, p);
      snapshots := snapshots[result := Provenance(a, c.bot_id, c.scopes, o.snapshots)];
      r := Ok(result);
    }

    /** extract: passes the provenance gate at most once per result, and returns the
        material that discovery classified, for the account it was authorised for. */
    method Extract(c: Connection, a: Authority, result: DiscoveryResult, probe: Option<Identity>, fetch: string -> Result<Page, SlackError>)
      returns (r: Result<PrivateMaterial, ExtractError>)
      requires Valid()
      modifies this
      ensures Valid() && old(consumed) <= consumed
      ensures result !in old(snapshots) ==> r == Err(Refused(ProvenanceRequired)) && snapshots == old(snapshots) && consumed == old(consumed)
      ensures result in old(snapshots) ==> snapshots == old(snapshots) - {result} && consumed == old(consumed) + {result}
      ensures r.Ok? ==>
                && result in old(snapshots)
                && var p := old(snapshots)[result];
                   && MayExtract(c, a, p, probe)
                   && Refetched(fetch, result.credentialTs, p) && Refetched(fetch, result.backupTs, p)
                   && r.value.email == a.account_email
                   && DiscoveredMaterial(read, result, p, r.value.password, r.value.backup_codes)
      ensures r.Err? ==> !r.error.EmptyAfterParse?
      ensures r.Ok? <==>
                && result in old(snapshots)
                && var p := old(snapshots)[result];
                   && MayExtract(c, a, p, probe)
                   && Servable(read, fetch, result.credentialTs, a, p.snapshots[result.credentialTs])
                   && Servable(read, fetch, result.backupTs, a, p.snapshots[result.backupTs])
    {
      hide Servable, Lenient, Refetched, Admitted, DiscoveredMaterial, Provenanced;
      if result !in snapshots {
        return Err(Refused(ProvenanceRequired));
      }
      var p := snapshots[result];
      snapshots := snapshots - {result};
      consumed := consumed + {result};
      var refusal := Authorise(c, a, p, probe);
      if refusal.Some? {
        return Err(Refused(refusal.value));
      }
      ProvenancedSources(read, result, p);
      var sources := RefetchSources(a, result, p, fetch);
      if sources.Err? {
        return Err(Refused(sources.error));
      }
      var (password, backups) := sources.value;
      SourcesAreUsable(read, result, p, password, backups);
      if password.None? || password.value == "" || backups == [] {
        return Err(EmptyAfterParse);
      }
      r := Ok(PrivateMaterial(a.account_email, password.value, backups));
    }

    method Authorise(c: Connection, a: Authority, p: Provenance, probe: Option<Identity>) returns (r: Option<SlackError>)
      ensures r.None? <==> MayExtract(c, a, p, probe)
    {
      if a != p.authority {
        return Some(AuthorityMismatch);
      }
      if !ValidAuthority(a) {
        return Some(InvalidAuthority);
      }
      if !c.valid {
        return Some(Failed);
      }
      if c.team_id != a.team_id || c.channel_id != a.channel_id || c.bot_id != p.bot_id || c.scopes != p.scopes {
        return Some(AuthorityMismatch);
      }
      if probe.None? {
        return Some(Failed);
      }
      if probe.value.team_id != a.team_id || probe.value.bot_id != p.bot_id {
        return Some(AuthorityMismatch);
      }
      if probe.value.scopes != p.scopes {
        return Some(ScopeMismatch);
      }
      r := None;
    }

    /** The loop over the two references; one message may serve as both. */
    method RefetchSources(a: Authority, result: DiscoveryResult, p: Provenance, fetch: string -> Result<Page, SlackError>)
      returns (r: Result<(Option<string>, seq<string>), SlackError>)
      ensures r.Ok? <==>
                && result.channel_id == a.channel_id
                && result.credentialTs in p.snapshots && InWindow(a, result.credentialTs)
                && result.backupTs in p.snapshots && InWindow(a, result.backupTs)
                && Servable(read, fetch, result.credentialTs, a, p.snapshots[result.credentialTs])
                && Servable(read, fetch, result.backupTs, a, p.snapshots[result.backupTs])
      ensures r.Ok? ==>
                && Refetched(fetch, result.credentialTs, p) && Refetched(fetch, result.backupTs, p)
                && Lenient(read, a, p.snapshots[result.credentialTs]).Ok? && Lenient(read, a, p.snapshots[result.backupTs]).Ok?
                && Lenient(read, a, p.snapshots[result.credentialTs]).value.password == r.value.0
                && Lenient(read, a, p.snapshots[result.backupTs]).value.backups == r.value.1
    {
      hide LexLe, MaterialOf, Lenient, Servable;
      var material: map<string, Material> := map[];
      var references := [result.credentialTs, result.backupTs];
      for i := 0 to 2
        invariant forall k :: 0 <= k < i ==> references[k] in material
        invariant i > 0 ==> result.channel_id == a.channel_id
        invariant forall ts :: ts in material ==>
                    && Refetched(fetch, ts, p) && Lenient(read, a, p.snapshots[ts]) == Ok(material[ts])
                    && InWindow(a, ts) && Servable(read, fetch, ts, a, p.snapshots[ts])
      {
        var ts := references[i];
        if result.channel_id != a.channel_id || ts !in p.snapshots || !InWindow(a, ts) {
          return Err(ProvenanceRequired);
        }
        if ts in material {
          continue;
        }
        var parsed := Refetch(a, ts, p.snapshots[ts], fetch);
        if parsed.Err? {
          return Err(parsed.error);
        }
        material := material[ts := parsed.value];
      }
      r := Ok((material[references[0]].password, material[references[1]].backups));
    }

    /** One refetch: exactly the snapshotted message, parsed strictly. */
    method Refetch(a: Authority, ts: string, snapshot: Message, fetch: string -> Result<Page, SlackError>) returns (r: Result<Material, SlackError>)
      ensures r.Ok? <==> Servable(read, fetch, ts, a, snapshot)
      ensures r.Ok? ==> Lenient(read, a, snapshot) == Ok(r.value) && fetch(ts).Ok? && fetch(ts).value.messages == Some([snapshot])
    {
      hide ScanFrom, Conclude;
      var fetched := fetch(ts);
      if fetched.Err? {
        return Err(fetched.error);
      }
      var page := fetched.value;
      if page.hasMore != Value(false) || page.limited || !(page.cursor.Last? || page.cursor == Next("")) {
        return Err(Incomplete);
      }
      if !page.channel.Undefined? && page.channel != Value(a.channel_id) {
        return Err(AuthorityMismatch);
      }
      if page.messages.None? || |page.messages.value| != 1 || page.messages.value[0].NotObject?
         || page.messages.value[0].ts != Some(ts) || page.messages.value[0] != snapshot {
        return Err(SourceChanged);
      }
      var m := page.messages.value[0];
      assert page.messages.value == [m];
      var text := BodyText(read, m);
      r := ParseMaterial(text, a.account_email, true);
      StrictAgreesWithLenient(text, a.account_email);
    }

    /** A spent capability stays spent, whatever is discovered in between. */
    method ExtractTwice(c: Connection, a: Authority, result: DiscoveryResult, probe: Option<Identity>,
                        fetch: string -> Result<Page, SlackError>, again: string -> Result<Page, SlackError>, t: Transport)
      returns (first: Result<PrivateMaterial, ExtractError>, second: Result<PrivateMaterial, ExtractError>)
      requires Valid() && t.read == read
      modifies this
      ensures Valid()
      ensures second == Err(Refused(ProvenanceRequired))
      ensures first.Ok? ==> result in old(snapshots)
    {
      hide Provenanced, MayExtract, Refetched, DiscoveredMaterial, Admitted;
      first := Extract(c, a, result, probe, fetch);
      var rediscovered := Discover(c, a, probe, t);
      second := Extract(c, a, result, probe, again);
    }
  }

  lemma DiscoveredIsProvenanced(t: Transport, a: Authority, p: Provenance)
    requires ValidAuthority(a) && p.authority == a
    requires Discovered(t, a).Ok? && p.snapshots == Discovered(t, a).value.snapshots
    ensures Provenanced(t.read, a.channel_id, Discovered(t, a).value.credentialTs, Discovered(t, a).value.backupTs, p)
  {
    hide Discovered, Provenanced, ValidAuthority, FlatAccepts, Chain;
    DiscoveryIsFlat(t, a);
    var pages := Pages(t, a).value;
    var m, b :| FlatAccepts(t, a, Concat(pages), m, b);
    AcceptedIsProvenanced(t, a, Concat(pages), m, b, p);
  }
}
