/** Cursor-paginated history discovery (scripts/private-slack-discovery.py:35-54,
    215-313): the paged scan, and the flat specification it refines. */
module SlackScan {
  import opened JsValues
  import opened SlackText
  import opened SlackTimestamp
  import opened SlackMaterial

  const TEAM := "TEG3AC109"
  const CHANNEL := "C07CA08AKUH"
  const PAGE_LIMIT: nat := 100
  const MAX_CURSOR: nat := 2048

  datatype Authority = Authority(
    team_id: string, channel_id: string, account_email: string, oldest_ts: string, latest_ts: string,
    max_messages: int, max_pages: int)

  predicate ValidAuthority(a: Authority) {
    && a.team_id == TEAM && a.channel_id == CHANNEL
    && |a.account_email| <= 254 && IsEmail(a.account_email)
    && IsTs(a.oldest_ts) && IsTs(a.latest_ts) && !LexLe(a.latest_ts, a.oldest_ts)
    && 1 <= a.max_messages <= 500 && 1 <= a.max_pages <= 20
  }

  /** A history entry: not an object, or its fields. A missing reply count reads as
      zero, None stands for one that is no integer; `rest` is all other content. */
  datatype Message = NotObject | Message(ts: Option<string>, replies: Option<int>, body: Option<string>, rest: string)

  /** The cursor part of a page. An absent, null or empty cursor reads as `Last`. */
  datatype Cursor = BadMetadata | NotAString | Last | Next(cursor: string)

  datatype Page = Page(limited: bool, channel: Js<string>, messages: Option<seq<Message>>, hasMore: Js<bool>, cursor: Cursor)

  datatype Request = Request(cursor: string, limit: int)

  /** The other side: an arbitrary answer to the n-th request, an arbitrary clock, and
      how message bodies unescape and split into lines. */
  datatype Transport = Transport(
    fetch: (nat, Request) -> Result<Page, SlackError>,
    expired: nat -> bool,
    read: string -> Text)

  function TextOf(t: Transport, m: Message): Text
    requires m.Message?
  {
    if m.body.Some? then t.read(m.body.value) else NotText
  }

  predicate PrintableCursor(s: string) {
    |s| <= MAX_CURSOR && forall c :: c in s ==> '!' <= c <= '~'
  }

  function Min(a: int, b: int): int {
    if a < b then a else b
  }

  /** What the scan has collected: timestamps seen, candidate timestamps of either
      kind, and the candidate messages by timestamp. */
  datatype Scan = Scan(seen: set<string>, credentials: seq<string>, backups: seq<string>, snapshots: map<string, Message>, count: nat)

  const NO_MESSAGES: Scan := Scan({}, [], [], map[], 0)

  predicate InWindow(a: Authority, ts: string) {
    LexLe(a.oldest_ts, ts) && LexLe(ts, a.latest_ts)
  }

  function ScanMessage(t: Transport, a: Authority, s: Scan, m: Message): Result<Scan, SlackError> {
    if m.NotObject? || m.ts.None? || !IsTs(m.ts.value) || m.ts.value in s.seen || !InWindow(a, m.ts.value) then Err(InvalidMessage)
    else if m.replies.None? || m.replies.value < 0 then Err(InvalidMessage)
    else if m.replies.value != 0 then Err(UninspectedThread)
    else
      match Classify(TextOf(t, m), a.account_email)
      case Err(e) => Err(e)
      case Ok((credential, backup)) =>
        var ts := m.ts.value;
        var credentials := if credential then s.credentials + [ts] else s.credentials;
        var backups := if backup then s.backups + [ts] else s.backups;
        if |credentials| > 1 || |backups| > 1 then Err(AmbiguousCandidates)
        else Ok(Scan(s.seen + {ts}, credentials, backups, if credential || backup then s.snapshots[ts := m] else s.snapshots, s.count + 1))
  }

  function ScanMessages(t: Transport, a: Authority, s: Scan, ms: seq<Message>): Result<Scan, SlackError>
    decreases |ms|
  {
    if ms == [] then Ok(s)
    else
      match ScanMessage(t, a, s, ms[0])
      case Ok(next) => ScanMessages(t, a, next, ms[1..])
      case Err(e) => Err(e)
  }

  /** The checks on a page before its messages are looked at. */
  function PageError(a: Authority, page: Page, limit: int): Option<SlackError> {
    if page.limited then Some(Incomplete)
    else if !page.channel.Undefined? && page.channel != Value(a.channel_id) then Some(AuthorityMismatch)
    else if page.messages.None? || |page.messages.value| > limit then Some(InvalidResponse)
    else None
  }

  /** The checks after them; Ok(None) is the end of the chain. */
  function NextCursor(page: Page, cursors: set<string>): Result<Option<string>, SlackError>
    requires page.messages.Some?
  {
    if page.cursor.BadMetadata? then Err(InvalidResponse)
    else if page.hasMore.Undefined? then Err(Incomplete)
    else if page.hasMore.Null? || page.cursor.NotAString? || (page.cursor.Next? && !PrintableCursor(page.cursor.cursor)) then Err(InvalidResponse)
    else if page.cursor.Last? || page.cursor.cursor == "" then (if page.hasMore.v then Err(Incomplete) else Ok(None))
    else if page.cursor.cursor in cursors || page.messages.value == [] then Err(Incomplete)
    else Ok(Some(page.cursor.cursor))
  }

  /** The paged scan from its n-th request on: pages and messages interleaved. */
  function Paged(t: Transport, a: Authority, n: nat, cursor: string, cursors: set<string>, s: Scan): Result<(Scan, nat), SlackError>
    decreases a.max_pages - n
  {
    if n >= a.max_pages || s.count >= a.max_messages || t.expired(n) then Err(Incomplete)
    else
      var limit := Min(PAGE_LIMIT, a.max_messages - s.count);
      match t.fetch(n, Request(cursor, limit))
      case Err(e) => Err(e)
      case Ok(page) =>
        if PageError(a, page, limit).Some? then Err(PageError(a, page, limit).value)
        else
          match ScanMessages(t, a, s, page.messages.value)
          case Err(e) => Err(e)
          case Ok(next) =>
            match NextCursor(page, cursors)
            case Err(e) => Err(e)
            case Ok(None) => Ok((next, n + 1))
            case Ok(Some(c)) => Paged(t, a, n + 1, c, cursors + {c}, next)
  }

  /** The cursor chain alone: the message lists of the pages it passes through. */
  function Chain(t: Transport, a: Authority, n: nat, cursor: string, cursors: set<string>, count: nat): Result<seq<seq<Message>>, SlackError>
    decreases a.max_pages - n
  {
    if n >= a.max_pages || count >= a.max_messages || t.expired(n) then Err(Incomplete)
    else
      var limit := Min(PAGE_LIMIT, a.max_messages - count);
      match t.fetch(n, Request(cursor, limit))
      case Err(e) => Err(e)
      case Ok(page) =>
        if PageError(a, page, limit).Some? then Err(PageError(a, page, limit).value)
        else
          match NextCursor(page, cursors)
          case Err(e) => Err(e)
          case Ok(None) => Ok([page.messages.value])
          case Ok(Some(c)) =>
            match Chain(t, a, n + 1, c, cursors + {c}, count + |page.messages.value|)
            case Ok(rest) => Ok([page.messages.value] + rest)
            case Err(e) => Err(e)
  }

  function Concat(pages: seq<seq<Message>>): seq<Message> {
    if pages == [] then [] else pages[0] + Concat(pages[1..])
  }

  /** Properties of one message that do not depend on the others. */
  predicate Admissible(t: Transport, a: Authority, m: Message) {
    && m.Message? && m.ts.Some? && IsTs(m.ts.value) && InWindow(a, m.ts.value)
    && m.replies == Some(0)
    && Classify(TextOf(t, m), a.account_email).Ok?
  }

  predicate IsCredential(t: Transport, a: Authority, m: Message) {
    Admissible(t, a, m) && Classify(TextOf(t, m), a.account_email).value.0
  }

  predicate IsBackup(t: Transport, a: Authority, m: Message) {
    Admissible(t, a, m) && Classify(TextOf(t, m), a.account_email).value.1
  }

  ghost predicate AllAdmissible(t: Transport, a: Authority, ms: seq<Message>) {
    && (forall i :: 0 <= i < |ms| ==> Admissible(t, a, ms[i]))
    && (forall i, j :: 0 <= i < j < |ms| ==> ms[i].ts != ms[j].ts)
  }

  /** `m` is the one credential candidate, `b` the one backup candidate, of an
      admissible message list. No pages, no cursors, no order of checks. */
  ghost predicate FlatAccepts(t: Transport, a: Authority, ms: seq<Message>, m: Message, b: Message) {
    AllAdmissible(t, a, ms) && OnlyOfKind(t, a, ms, true, m) && OnlyOfKind(t, a, ms, false, b)
  }

  ghost predicate OnlyOfKind(t: Transport, a: Authority, ms: seq<Message>, credential: bool, m: Message) {
    m in ms && IsKind(t, a, m, credential) && forall x :: x in ms && IsKind(t, a, x, credential) ==> x == m
  }

  /** The scan state that describes an admissible list. */
  ghost predicate Describes(t: Transport, a: Authority, ms: seq<Message>, s: Scan) {
    && s.count == |ms|
    && (forall ts :: ts in s.seen <==> exists m :: m in ms && m.Message? && m.ts == Some(ts))
    && s.credentials == Stamps(t, a, ms, true) && s.backups == Stamps(t, a, ms, false)
    && (forall ts :: ts in s.snapshots <==> exists m :: m in ms && m.Message? && m.ts == Some(ts) && (IsCredential(t, a, m) || IsBackup(t, a, m)))
    && (forall ts :: ts in s.snapshots ==> s.snapshots[ts] in ms && s.snapshots[ts].Message? && s.snapshots[ts].ts == Some(ts))
  }

  predicate IsKind(t: Transport, a: Authority, m: Message, credential: bool) {
    if credential then IsCredential(t, a, m) else IsBackup(t, a, m)
  }

  /** The timestamps of the candidates of one kind, in order. */
  ghost function Stamps(t: Transport, a: Authority, ms: seq<Message>, credential: bool): (r: seq<string>)
    ensures |r| <= |ms|
  {
    if ms == [] then []
    else
      var last := ms[|ms|-1];
      Stamps(t, a, ms[..|ms|-1], credential) + if IsKind(t, a, last, credential) then [last.ts.value] else []
  }

  lemma {:induction false} StampsConcat(t: Transport, a: Authority, xs: seq<Message>, ys: seq<Message>, credential: bool)
    ensures Stamps(t, a, xs + ys, credential) == Stamps(t, a, xs, credential) + Stamps(t, a, ys, credential)
    decreases |ys|
  {
    hide IsKind;
    if ys == [] {
      assert xs + ys == xs;
    } else {
      assert (xs + ys)[..|xs + ys|-1] == xs + ys[..|ys|-1];
      StampsConcat(t, a, xs, ys[..|ys|-1], credential);
    }
  }

  lemma {:induction false} StampsOf(t: Transport, a: Authority, ms: seq<Message>, credential: bool)
    ensures forall ts :: ts in Stamps(t, a, ms, credential) <==> exists m :: m in ms && IsKind(t, a, m, credential) && m.Message? && m.ts == Some(ts)
  {
    if ms != [] {
      StampsOf(t, a, ms[..|ms|-1], credential);
      assert ms == ms[..|ms|-1] + [ms[|ms|-1]];
    }
  }

  /** What the message loop tolerates so far: admissible, distinct, and at most one
      candidate of each kind. */
  ghost predicate Tolerated(t: Transport, a: Authority, ms: seq<Message>) {
    && AllAdmissible(t, a, ms)
    && |Stamps(t, a, ms, true)| <= 1 && |Stamps(t, a, ms, false)| <= 1
  }

  lemma ToleratedPrefix(t: Transport, a: Authority, xs: seq<Message>, ys: seq<Message>)
    requires Tolerated(t, a, xs + ys)
    ensures Tolerated(t, a, xs)
  {
    hide Admissible, IsKind;
    assert forall i :: 0 <= i < |xs| ==> (xs + ys)[i] == xs[i];
    StampsConcat(t, a, xs, ys, true);
    StampsConcat(t, a, xs, ys, false);
  }

  lemma NothingTolerated(t: Transport, a: Authority)
    ensures Tolerated(t, a, []) && Describes(t, a, [], NO_MESSAGES)
  {}

  lemma StampsOfOne(t: Transport, a: Authority, ms: seq<Message>, m: Message, credential: bool)
    ensures Stamps(t, a, ms + [m], credential) == Stamps(t, a, ms, credential) + if IsKind(t, a, m, credential) then [m.ts.value] else []
  {
    hide IsKind;
    assert (ms + [m])[..|ms + [m]|-1] == ms;
  }

  lemma AdmissibleStep(t: Transport, a: Authority, before: seq<Message>, s: Scan, m: Message)
    requires AllAdmissible(t, a, before) && Describes(t, a, before, s)
    ensures AllAdmissible(t, a, before + [m]) <==> Admissible(t, a, m) && m.ts.value !in s.seen
  {
    hide Admissible, Stamps, IsCredential, IsBackup;
    var all := before + [m];
    if AllAdmissible(t, a, all) {
      assert all[|before|] == m;
      AdmissibleHasStamp(t, a, m);
      forall k | 0 <= k < |before| ensures before[k].Message? && before[k].ts != m.ts {
        assert all[k] == before[k];
        AdmissibleHasStamp(t, a, before[k]);
      }
    }
    if Admissible(t, a, m) {
      AdmissibleHasStamp(t, a, m);
      if m.ts.value !in s.seen {
        forall k | 0 <= k < |before| ensures before[k].Message? && before[k].ts != m.ts {
          AdmissibleHasStamp(t, a, before[k]);
          assert before[k] in before;
        }
      }
    }
  }

  lemma AdmissibleHasStamp(t: Transport, a: Authority, m: Message)
    ensures Admissible(t, a, m) ==> m.Message? && m.ts.Some?
  {}

  /** One message: accepted exactly when the list stays tolerable, and then the new
      state describes the longer list. */
  lemma MessageStep(t: Transport, a: Authority, before: seq<Message>, s: Scan, m: Message)
    requires Tolerated(t, a, before) && Describes(t, a, before, s)
    ensures ScanMessage(t, a, s, m).Ok? <==> Tolerated(t, a, before + [m])
    ensures ScanMessage(t, a, s, m).Ok? ==> Describes(t, a, before + [m], ScanMessage(t, a, s, m).value)
  {
    hide Stamps, IsTs, LexLe, Classify, AllAdmissible;
    AdmissibleStep(t, a, before, s, m);
    StampsOfOne(t, a, before, m, true);
    StampsOfOne(t, a, before, m, false);
  }

  lemma {:induction false} MessagesStep(t: Transport, a: Authority, before: seq<Message>, s: Scan, ms: seq<Message>)
    requires Tolerated(t, a, before) && Describes(t, a, before, s)
    ensures ScanMessages(t, a, s, ms).Ok? <==> Tolerated(t, a, before + ms)
    ensures ScanMessages(t, a, s, ms).Ok? ==> Describes(t, a, before + ms, ScanMessages(t, a, s, ms).value)
    decreases |ms|
  {
    hide Tolerated, Describes, ScanMessage;
    if ms == [] {
      assert before + ms == before;
    } else {
      MessageStep(t, a, before, s, ms[0]);
      assert before + ms == (before + [ms[0]]) + ms[1..];
      if ScanMessage(t, a, s, ms[0]).Ok? {
        MessagesStep(t, a, before + [ms[0]], ScanMessage(t, a, s, ms[0]).value, ms[1..]);
      } else if Tolerated(t, a, before + ms) {
        ToleratedPrefix(t, a, before + [ms[0]], ms[1..]);
      }
    }
  }

  /** The interleaved scan succeeds exactly when the chain alone does and the
      concatenation of its pages is tolerable; it then ends in the state that
      describes that concatenation. */
  lemma {:induction false} PagedIsChainThenMessages(t: Transport, a: Authority, n: nat, cursor: string, cursors: set<string>, s: Scan, before: seq<Message>)
    requires Tolerated(t, a, before) && Describes(t, a, before, s)
    ensures var paged, chain := Paged(t, a, n, cursor, cursors, s), Chain(t, a, n, cursor, cursors, |before|);
            && (paged.Ok? <==> chain.Ok? && Tolerated(t, a, before + Concat(chain.value)))
            && (paged.Ok? ==> Describes(t, a, before + Concat(chain.value), paged.value.0) && paged.value.1 == n + |chain.value|)
    decreases a.max_pages - n
  {
    hide Tolerated, Describes, ScanMessages, PageError, NextCursor;
    DescribesCount(t, a, before, s);
    if n < a.max_pages && |before| < a.max_messages && !t.expired(n) {
      var limit := Min(PAGE_LIMIT, a.max_messages - |before|);
      var fetched := t.fetch(n, Request(cursor, limit));
      if fetched.Ok? && PageError(a, fetched.value, limit).None? {
        var page := fetched.value;
        PageErrorCovers(a, page, limit);
        var ms := page.messages.value;
        MessagesStep(t, a, before, s, ms);
        var scanned, next := ScanMessages(t, a, s, ms), NextCursor(page, cursors);
        assert Concat([ms]) == ms by { assert [ms][1..] == []; }
        if next.Ok? && next.value.Some? {
          var c := next.value.value;
          var rest := Chain(t, a, n + 1, c, cursors + {c}, |before| + |ms|);
          if rest.Ok? {
            assert ([ms] + rest.value)[1..] == rest.value;
            assert before + (ms + Concat(rest.value)) == (before + ms) + Concat(rest.value);
          }
          if scanned.Ok? {
            PagedIsChainThenMessages(t, a, n + 1, c, cursors + {c}, scanned.value, before + ms);
          } else if rest.Ok? && Tolerated(t, a, (before + ms) + Concat(rest.value)) {
            ToleratedPrefix(t, a, before + ms, Concat(rest.value));
          }
        }
      }
    }
  }

  lemma DescribesCount(t: Transport, a: Authority, ms: seq<Message>, s: Scan)
    requires Describes(t, a, ms, s)
    ensures s.count == |ms|
  {}

  lemma PageErrorCovers(a: Authority, page: Page, limit: int)
    requires PageError(a, page, limit).None?
    ensures page.messages.Some? && |page.messages.value| <= limit
  {}

  /** The references and counts of a successful discovery. */
  datatype Outcome = Outcome(credentialTs: string, backupTs: string, messages: nat, pages: nat, snapshots: map<string, Message>)

  function Discovered(t: Transport, a: Authority): Result<Outcome, SlackError> {
    match Paged(t, a, 0, "", {}, NO_MESSAGES)
    case Err(e) => Err(e)
    case Ok((s, pages)) =>
      if |s.credentials| != 1 || |s.backups| != 1 then Err(CandidatesNotFound)
      else Ok(Outcome(s.credentials[0], s.backups[0], s.count, pages, s.snapshots))
  }

  function Pages(t: Transport, a: Authority): Result<seq<seq<Message>>, SlackError> {
    Chain(t, a, 0, "", {}, 0)
  }

  lemma NoStampIsNoMessage(t: Transport, a: Authority, ms: seq<Message>, credential: bool)
    ensures Stamps(t, a, ms, credential) == [] <==> forall x :: x in ms ==> !IsKind(t, a, x, credential)
  {
    StampsOf(t, a, ms, credential);
    forall x | x in ms && IsKind(t, a, x, credential) ensures Stamps(t, a, ms, credential) != [] {
      assert x.ts.value in Stamps(t, a, ms, credential);
    }
    if Stamps(t, a, ms, credential) != [] {
      assert Stamps(t, a, ms, credential)[0] in Stamps(t, a, ms, credential);
    }
  }

  /** Exactly one candidate of a kind, seen in the stamps and seen in the messages. */
  lemma {:induction false} OneStampIsOneMessage(t: Transport, a: Authority, ms: seq<Message>, credential: bool)
    requires AllAdmissible(t, a, ms)
    ensures |Stamps(t, a, ms, credential)| == 1 <==> exists m :: OnlyOfKind(t, a, ms, credential, m)
    ensures forall m :: OnlyOfKind(t, a, ms, credential, m) ==> m.Message? && m.ts.Some? && Stamps(t, a, ms, credential) == [m.ts.value]
  {
    hide Admissible, IsKind, AllAdmissible, OnlyOfKind, Stamps;
    if ms == [] {
      NoMessagesNoStamps(t, a, credential);
    } else {
      var prior, last := ms[..|ms|-1], ms[|ms|-1];
      assert ms == prior + [last];
      AdmissiblePrior(t, a, prior, last);
      OneStampIsOneMessage(t, a, prior, credential);
      NoStampIsNoMessage(t, a, prior, credential);
      StampsOfOne(t, a, prior, last, credential);
      forall m ensures OnlyOfKind(t, a, ms, credential, m) <==>
        if IsKind(t, a, last, credential) then m == last && Stamps(t, a, prior, credential) == [] else OnlyOfKind(t, a, prior, credential, m)
      {
        OnlyOfKindStep(t, a, prior, last, credential, m);
      }
    }
  }

  lemma NoMessagesNoStamps(t: Transport, a: Authority, credential: bool)
    ensures Stamps(t, a, [], credential) == [] && forall m :: !OnlyOfKind(t, a, [], credential, m)
  {}

  lemma AdmissiblePrior(t: Transport, a: Authority, prior: seq<Message>, last: Message)
    requires AllAdmissible(t, a, prior + [last])
    ensures AllAdmissible(t, a, prior) && last !in prior && last.Message? && last.ts.Some?
  {
    hide Admissible;
    var ms := prior + [last];
    assert ms[|prior|] == last && forall k :: 0 <= k < |prior| ==> ms[k] == prior[k];
    AdmissibleHasStamp(t, a, last);
    forall k | 0 <= k < |prior| ensures prior[k] != last {
      AdmissibleHasStamp(t, a, prior[k]);
      assert ms[k].ts != ms[|prior|].ts;
    }
  }

  lemma OnlyOfKindStep(t: Transport, a: Authority, prior: seq<Message>, last: Message, credential: bool, m: Message)
    requires last !in prior
    ensures OnlyOfKind(t, a, prior + [last], credential, m) <==>
              if IsKind(t, a, last, credential) then m == last && forall x :: x in prior ==> !IsKind(t, a, x, credential)
              else OnlyOfKind(t, a, prior, credential, m)
  {
    hide IsKind;
    assert forall x :: x in prior + [last] <==> x in prior || x == last;
  }

  /** What a successful discovery of pages `pages` with candidates `m` and `b` reports. */
  ghost predicate Reports(o: Outcome, pages: seq<seq<Message>>, m: Message, b: Message) {
    && m.Message? && b.Message? && m.ts == Some(o.credentialTs) && b.ts == Some(o.backupTs)
    && o.messages == |Concat(pages)| && o.pages == |pages|
    && o.snapshots == map[o.credentialTs := m, o.backupTs := b]
  }

  /** What a state that describes an admissible list says about its candidates. */
  lemma DescribedCandidates(t: Transport, a: Authority, ms: seq<Message>, s: Scan)
    requires AllAdmissible(t, a, ms) && Describes(t, a, ms, s)
    ensures |s.credentials| == 1 && |s.backups| == 1 <==> exists m, b :: FlatAccepts(t, a, ms, m, b)
    ensures forall m, b :: FlatAccepts(t, a, ms, m, b) ==>
              && m.Message? && b.Message? && m.ts.Some? && b.ts.Some?
              && s.credentials == [m.ts.value] && s.backups == [b.ts.value]
              && s.snapshots == map[m.ts.value := m, b.ts.value := b]
  {
    hide AllAdmissible, Stamps, IsCredential, IsBackup;
    OneStampIsOneMessage(t, a, ms, true);
    OneStampIsOneMessage(t, a, ms, false);
    if |s.credentials| == 1 && |s.backups| == 1 {
      var m :| OnlyOfKind(t, a, ms, true, m);
      var b :| OnlyOfKind(t, a, ms, false, b);
      assert FlatAccepts(t, a, ms, m, b);
    }
    forall m, b | FlatAccepts(t, a, ms, m, b) ensures s.snapshots == map[m.ts.value := m, b.ts.value := b] {
      CandidateSnapshots(t, a, ms, s, m, b);
    }
  }

  lemma CandidateSnapshots(t: Transport, a: Authority, ms: seq<Message>, s: Scan, m: Message, b: Message)
    requires Describes(t, a, ms, s) && FlatAccepts(t, a, ms, m, b)
    ensures m.Message? && b.Message? && m.ts.Some? && b.ts.Some?
    ensures s.snapshots == map[m.ts.value := m, b.ts.value := b]
  {
    hide Stamps, Classify, LexLe, IsTs;
    forall ts ensures ts in s.snapshots <==> ts == m.ts.value || ts == b.ts.value {
      assert ts == m.ts.value ==> m in ms && IsCredential(t, a, m);
      assert ts == b.ts.value ==> b in ms && IsBackup(t, a, b);
    }
    forall ts | ts in s.snapshots ensures s.snapshots[ts] == if ts == b.ts.value then b else m {
      SameStampSameMessage(t, a, ms, s.snapshots[ts], if ts == b.ts.value then b else m);
    }
  }

  lemma SameStampSameMessage(t: Transport, a: Authority, ms: seq<Message>, x: Message, y: Message)
    requires AllAdmissible(t, a, ms) && x in ms && y in ms && x.Message? && y.Message? && x.ts == y.ts
    ensures x == y
  {
    hide Admissible;
    var i :| 0 <= i < |ms| && ms[i] == x;
    var j :| 0 <= j < |ms| && ms[j] == y;
  }

  /** Discovery refines the flat specification: it succeeds exactly when the cursor
      chain completes within its bounds and the concatenated messages are
      acceptable, and then reports the two candidates and the sizes of both. */
  lemma DiscoveryIsFlat(t: Transport, a: Authority)
    ensures Discovered(t, a).Ok? <==> Pages(t, a).Ok? && exists m, b :: FlatAccepts(t, a, Concat(Pages(t, a).value), m, b)
    ensures Discovered(t, a).Ok? ==>
              forall m, b :: FlatAccepts(t, a, Concat(Pages(t, a).value), m, b) ==> Reports(Discovered(t, a).value, Pages(t, a).value, m, b)
  {
    hide AllAdmissible, Stamps, OnlyOfKind, Describes, Paged, Chain;
    NothingTolerated(t, a);
    PagedIsChainThenMessages(t, a, 0, "", {}, NO_MESSAGES, []);
    var paged, chain := Paged(t, a, 0, "", {}, NO_MESSAGES), Pages(t, a);
    if chain.Ok? {
      var ms := Concat(chain.value);
      assert [] + ms == ms;
      if paged.Ok? {
        DescribesCount(t, a, ms, paged.value.0);
        DescribedCandidates(t, a, ms, paged.value.0);
      } else {
        forall m, b | FlatAccepts(t, a, ms, m, b) ensures false {
          FlatIsTolerated(t, a, ms, m, b);
        }
      }
    }
  }

  lemma FlatIsTolerated(t: Transport, a: Authority, ms: seq<Message>, m: Message, b: Message)
    requires FlatAccepts(t, a, ms, m, b)
    ensures Tolerated(t, a, ms)
  {
    OneStampIsOneMessage(t, a, ms, true);
    OneStampIsOneMessage(t, a, ms, false);
  }

  /** Paging does not matter: two accepted pagings of the same messages, under the
      same reading of bodies, give the same references and message count. */
  lemma PagingIsIrrelevant(t: Transport, u: Transport, a: Authority)
    requires t.read == u.read
    requires Discovered(t, a).Ok? && Discovered(u, a).Ok?
    requires Pages(t, a).Ok? && Pages(u, a).Ok? && Concat(Pages(t, a).value) == Concat(Pages(u, a).value)
    ensures var x, y := Discovered(t, a).value, Discovered(u, a).value;
            x.credentialTs == y.credentialTs && x.backupTs == y.backupTs && x.messages == y.messages && x.snapshots == y.snapshots
  {
    hide Chain, Discovered, Classify;
    DiscoveryIsFlat(t, a);
    DiscoveryIsFlat(u, a);
    var ms := Concat(Pages(t, a).value);
    var m, b :| FlatAccepts(t, a, ms, m, b);
    assert FlatAccepts(u, a, ms, m, b);
  }

  /** Every page but the last carries a message, so pages are bounded by messages. */
  lemma {:induction false} PagesBoundedByMessages(t: Transport, a: Authority, n: nat, cursor: string, cursors: set<string>, count: nat)
    requires Chain(t, a, n, cursor, cursors, count).Ok?
    ensures var pages := Chain(t, a, n, cursor, cursors, count).value;
            && 1 <= |pages| <= |Concat(pages)| + 1 && n + |pages| <= a.max_pages
            && count + |Concat(pages)| <= a.max_messages
    decreases a.max_pages - n
  {
    hide PageError, NextCursor;
    var limit := Min(PAGE_LIMIT, a.max_messages - count);
    var page := t.fetch(n, Request(cursor, limit)).value;
    PageErrorCovers(a, page, limit);
    var ms := page.messages.value;
    assert Concat([ms]) == ms by { assert [ms][1..] == []; }
    if NextCursor(page, cursors).value.Some? {
      var c := NextCursor(page, cursors).value.value;
      NextCursorIsFresh(page, cursors);
      var rest := Chain(t, a, n + 1, c, cursors + {c}, count + |ms|).value;
      PagesBoundedByMessages(t, a, n + 1, c, cursors + {c}, count + |ms|);
      assert ([ms] + rest)[1..] == rest;
    }
  }

  lemma NextCursorIsFresh(page: Page, cursors: set<string>)
    requires page.messages.Some? && NextCursor(page, cursors).Ok? && NextCursor(page, cursors).value.Some?
    ensures page.messages.value != [] && NextCursor(page, cursors).value.value !in cursors && NextCursor(page, cursors).value.value != ""
  {}
}
