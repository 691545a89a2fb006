/** The versioned credential slot of the local importer, read and written while
    other processes may write or delete it
    (scripts/private-sam-local-credentials.py:71, 184-281). */
module CredentialSlot {
  import opened JsValues
  import opened SlackText

  const STORE_ID := "agent_browser_sam_login_gov_v1"
  const SCHEMA := "agent-browser.private-sam-local-credential.v1"
  const MAX_PAYLOAD: nat := 2560
  const MAX_EMAIL: nat := 254

  newtype Byte = x: int | 0 <= x < 256

  type Bytes = seq<Byte>

  datatype LocalError =
    | InvalidAuthority | InvalidPayload | InvalidMetadata
    | StoreUnavailable | StoreFailed
    | MaterialMissing | ProvenanceRequired | SourceChanged | AccountMismatch

  datatype Authority = Authority(store_id: string, account_email: string)

  predicate ValidAuthority(a: Authority) {
    a.store_id == STORE_ID && |a.account_email| <= MAX_EMAIL && IsEmail(a.account_email)
  }

  datatype Reference = Reference(store_id: string, lastWritten: nat)

  /** /^[1-9][0-9]{10,19}$/ */
  predicate ValidFiletime(v: nat) {
    10_000_000_000 <= v < 100_000_000_000_000_000_000
  }

  // ---------------------------------------------------------------- the payload

  datatype Material = Material(email: string, password: string, backupCodes: seq<string>)

  /** A decoded JSON value: `fields` are the keys of an object, and a value of the
      wrong type is None. */
  datatype Json = Json(keys: set<string>, schema: Option<string>, email: Option<string>, password: Option<string>, codes: Option<seq<Option<string>>>)

  const KEYS: set<string> := {"schema", "email", "password", "backup_codes"}

  predicate IsHex(c: char) {
    IsDigit(c) || 'a' <= c <= 'f' || 'A' <= c <= 'F'
  }

  predicate AllHex(s: string) {
    forall c :: c in s ==> IsHex(c)
  }

  /** Twelve hexadecimal digits, bare or in three dashed groups. */
  predicate IsBackupCode(s: string) {
    || (|s| == 12 && AllHex(s))
    || (|s| == 14 && s[4] == '-' && s[9] == '-' && AllHex(s[..4]) && AllHex(s[5..9]) && AllHex(s[10..]))
  }

  predicate IsPassword(s: string) {
    && 1 <= |s| <= 4096 && Strip(s, IsSpace) == s
    && forall c :: c in s ==> c >= ' ' && c != '\U{007F}'
  }

  predicate Usable(m: Material) {
    && |m.email| <= MAX_EMAIL && IsEmail(m.email) && IsPassword(m.password)
    && |m.backupCodes| == 1 && IsBackupCode(m.backupCodes[0])
  }

  /** _material: one validation for what is stored and for what is read back. */
  function CheckMaterial(j: Json): (r: Result<Material, LocalError>)
    ensures r.Ok? ==> Usable(r.value)
    ensures r.Err? ==> r.error == InvalidPayload
  {
    if j.keys == KEYS && j.schema == Some(SCHEMA) && j.email.Some? && j.password.Some? && j.codes.Some?
       && |j.codes.value| == 1 && j.codes.value[0].Some?
       && Usable(Material(j.email.value, j.password.value, [j.codes.value[0].value]))
    then Ok(Material(j.email.value, j.password.value, [j.codes.value[0].value]))
    else Err(InvalidPayload)
  }

  function JsonOf(m: Material): Json {
    Json(KEYS, Some(SCHEMA), Some(m.email), Some(m.password), Some(seq(|m.backupCodes|, i requires 0 <= i < |m.backupCodes| => Some(m.backupCodes[i]))))
  }

  lemma UsableIsChecked(m: Material)
    ensures CheckMaterial(JsonOf(m)).Ok? <==> Usable(m)
    ensures Usable(m) ==> CheckMaterial(JsonOf(m)) == Ok(m)
  {
    hide IsEmail, IsPassword, IsBackupCode;
    if |m.backupCodes| == 1 {
      assert m.backupCodes == [m.backupCodes[0]];
    }
  }

  // ---------------------------------------------------------------- the slot over time

  datatype Slot = Absent | Present(version: nat, blob: Bytes)

  /** What another process does to the slot; `later` is how far the write time moves
      beyond the smallest possible step. */
  datatype RivalOp = Write(blob: Bytes, later: nat) | Delete

  /** How one call of the helper process ends. A helper that is killed or fails may or
      may not have carried out its write. */
  datatype Helper = Works | Unavailable(effective: bool) | Fails(effective: bool)

  ghost predicate Same(log: seq<Slot>, i: nat, j: nat)
    requires i <= j < |log|
  {
    forall k :: i <= k <= j ==> log[k] == log[i]
  }

  /** Write times only grow, and one write time never names two states. */
  ghost predicate Ordered(log: seq<Slot>) {
    forall i, j :: 0 <= i <= j < |log| && log[i].Present? && log[j].Present? ==>
      log[i].version <= log[j].version && (log[i].version == log[j].version ==> Same(log, i, j))
  }

  ghost predicate Bounded(log: seq<Slot>, lastWrite: nat) {
    forall i :: 0 <= i < |log| && log[i].Present? ==> log[i].version <= lastWrite
  }

  lemma OrderedStep(log: seq<Slot>, lastWrite: nat, s: Slot)
    requires log != [] && Ordered(log) && Bounded(log, lastWrite)
    requires s == log[|log|-1] || s.Absent? || s.version > lastWrite
    ensures Ordered(log + [s])
  {
    var longer := log + [s];
    forall i, j | 0 <= i <= j < |longer| && longer[i].Present? && longer[j].Present?
      ensures longer[i].version <= longer[j].version
      ensures longer[i].version == longer[j].version ==> Same(longer, i, j)
    {
      if j < |log| {
        assert log[i] == longer[i] && log[j] == longer[j];
        assert longer[i].version == longer[j].version ==> Same(log, i, j);
      } else if i < |log| {
        assert log[i] == longer[i];
        if s == log[|log|-1] {
          assert s.version == longer[i].version ==> Same(log, i, |log|-1);
        }
      }
    }
  }

  /** Two observations of one write time: nothing happened in between, so a read taken
      in between returned exactly the value stored at that write time. */
  lemma Sandwich(log: seq<Slot>, i: nat, k: nat, j: nat)
    requires Ordered(log) && i <= k <= j < |log|
    requires log[i].Present? && log[j].Present? && log[i].version == log[j].version
    ensures log[k] == log[i] == log[j]
  {
    assert Same(log, i, j);
  }

  /** A discovery result is its identity. */
  class LocalDiscoveryResult {
    const credentialSource: Reference
    const backupCodeSource: Reference

    constructor (credentialSource: Reference, backupCodeSource: Reference)
      ensures this.credentialSource == credentialSource && this.backupCodeSource == backupCodeSource
    {
      this.credentialSource, this.backupCodeSource := credentialSource, backupCodeSource;
    }
  }

  ghost predicate Genuine(d: LocalDiscoveryResult, a: Authority, ref: Reference, at: nat, log: seq<Slot>) {
    && ValidAuthority(a) && ref.store_id == STORE_ID
    && d.credentialSource == ref && d.backupCodeSource == ref
    && at < |log| && log[at].Present? && log[at].version == ref.lastWritten
  }

  /** Every live result was discovered at a known place in the log. */
  ghost predicate Traced(provenance: map<LocalDiscoveryResult, (Authority, Reference)>, seenAt: map<LocalDiscoveryResult, nat>, log: seq<Slot>) {
    && provenance.Keys == seenAt.Keys
    && forall d :: d in provenance ==> Genuine(d, provenance[d].0, provenance[d].1, seenAt[d], log)
  }

  lemma TracedGrows(provenance: map<LocalDiscoveryResult, (Authority, Reference)>, seenAt: map<LocalDiscoveryResult, nat>,
                    log: seq<Slot>, longer: seq<Slot>)
    requires Traced(provenance, seenAt, log) && log <= longer
    ensures Traced(provenance, seenAt, longer)
  {
    hide ValidAuthority;
  }

  lemma TracedWith(provenance: map<LocalDiscoveryResult, (Authority, Reference)>, seenAt: map<LocalDiscoveryResult, nat>, log: seq<Slot>,
                   d: LocalDiscoveryResult, a: Authority, ref: Reference, at: nat)
    requires Traced(provenance, seenAt, log) && Genuine(d, a, ref, at, log)
    ensures Traced(provenance[d := (a, ref)], seenAt[d := at], log)
  {
    hide Genuine;
  }

  lemma TracedWithout(provenance: map<LocalDiscoveryResult, (Authority, Reference)>, seenAt: map<LocalDiscoveryResult, nat>, log: seq<Slot>,
                      d: LocalDiscoveryResult)
    requires Traced(provenance, seenAt, log) && d in provenance
    ensures d in seenAt && Traced(provenance - {d}, seenAt - {d}, log)
    ensures Genuine(d, provenance[d].0, provenance[d].1, seenAt[d], log)
  {
    hide Genuine;
  }

  class LocalCredentials {
    /** What other processes do before our n-th helper call takes effect. */
    const rivals: nat -> seq<RivalOp>
    const helper: nat -> Helper
    const later: nat -> nat
    const encode: Material -> Bytes
    const decode: Bytes -> Option<Json>

    var step: nat
    var slot: Slot
    var lastWrite: nat
    /** Every state the slot has gone through. */
    ghost var log: seq<Slot>

    var provenance: map<LocalDiscoveryResult, (Authority, Reference)>
    /** Where in the log each live result was discovered. */
    ghost var seenAt: map<LocalDiscoveryResult, nat>

    ghost predicate SlotValid()
      reads `slot, `lastWrite, `log
    {
      log != [] && log[|log|-1] == slot && Ordered(log) && Bounded(log, lastWrite)
    }

    ghost predicate Valid()
      reads this
    {
      SlotValid() && Traced(provenance, seenAt, log)
    }

    /** Nobody interferes with, and nothing goes wrong in, the next `n` helper calls. */
    ghost predicate Quiet(n: nat)
      reads this
    {
      QuietFrom(step, n)
    }

    ghost predicate QuietFrom(at: nat, n: nat) {
      forall k :: at <= k < at + n ==> rivals(k) == [] && helper(k) == Works
    }

    lemma QuietCalls()
      ensures Quiet(4) ==> QuietFrom(step, 1) && QuietFrom(step + 1, 1) && QuietFrom(step + 2, 1) && QuietFrom(step + 3, 1)
    {}

    /** The slot holds a payload that extraction for this account accepts. */
    predicate Readable(s: Slot, account: string) {
      && s.Present? && ValidFiletime(s.version) && 1 <= |s.blob| <= MAX_PAYLOAD
      && decode(s.blob).Some? && CheckMaterial(decode(s.blob).value).Ok?
      && CheckMaterial(decode(s.blob).value).value.email == account
    }

    constructor (rivals: nat -> seq<RivalOp>, helper: nat -> Helper, later: nat -> nat, encode: Material -> Bytes, decode: Bytes -> Option<Json>,
                 slot: Slot)
      ensures Valid() && provenance == map[] && this.slot == slot && log == [slot] && step == 0
      ensures this.rivals == rivals && this.helper == helper && this.later == later && this.encode == encode && this.decode == decode
    {
      this.rivals, this.helper, this.later, this.encode, this.decode := rivals, helper, later, encode, decode;
      this.slot, step := slot, 0;
      lastWrite := if slot.Present? then slot.version else 0;
      log := [slot];
      provenance, seenAt := map[], map[];
    }

    method Write(blob: Bytes, later: nat)
      requires SlotValid()
      modifies `slot, `lastWrite, `log
      ensures SlotValid() && lastWrite > old(lastWrite)
      ensures slot == Present(lastWrite, blob) && lastWrite == old(lastWrite) + 1 + later && log == old(log) + [slot]
    {
      OrderedStep(log, lastWrite, Present(lastWrite + 1 + later, blob));
      lastWrite := lastWrite + 1 + later;
      slot := Present(lastWrite, blob);
      log := log + [slot];
    }

    /** Whatever the rest of the machine does before our next helper call. */
    method Interfere()
      requires SlotValid()
      modifies `step, `slot, `lastWrite, `log
      ensures SlotValid() && old(log) <= log && lastWrite >= old(lastWrite) && step == old(step) + 1
      ensures rivals(old(step)) == [] ==> slot == old(slot) && log == old(log) && lastWrite == old(lastWrite)
    {
      var ops := rivals(step);
      step := step + 1;
      for i := 0 to |ops|
        invariant SlotValid() && old(log) <= log && lastWrite >= old(lastWrite) && step == old(step) + 1
        invariant i == 0 ==> slot == old(slot) && log == old(log) && lastWrite == old(lastWrite)
      {
        match ops[i]
        case Write(blob, beyond) =>
          Write(blob, beyond);
        case Delete =>
          OrderedStep(log, lastWrite, Absent);
          slot := Absent;
          log := log + [slot];
      }
    }

    /** The exit status of the helper call just made. */
    function Outcome(): Option<LocalError>
      requires step > 0
      reads this
    {
      match helper(step - 1)
      case Works => None
      case Unavailable(_) => Some(StoreUnavailable)
      case Fails(_) => Some(StoreFailed)
    }

    /** _metadata: the write time of the slot, as of now. */
    method Metadata() returns (r: Result<Option<Reference>, LocalError>)
      requires SlotValid()
      modifies `step, `slot, `lastWrite, `log
      ensures SlotValid() && old(log) <= log && lastWrite >= old(lastWrite) && step == old(step) + 1
      ensures r.Ok? ==> (r.value.Some? <==> slot.Present?)
      ensures r.Ok? && r.value.Some? ==> r.value.value == Reference(STORE_ID, slot.version) && ValidFiletime(slot.version)
      ensures r == Err(InvalidMetadata) ==> slot.Present? && !ValidFiletime(slot.version)
      ensures r.Err? ==> r.error in {InvalidMetadata, StoreUnavailable, StoreFailed}
      ensures old(Quiet(1)) ==> slot == old(slot) && log == old(log) && lastWrite == old(lastWrite)
      ensures old(Quiet(1)) && r.Err? ==> r.error == InvalidMetadata
    {
      assert Quiet(1) ==> rivals(step) == [] && helper(step) == Works;
      Interfere();
      if Outcome().Some? {
        return Err(Outcome().value);
      }
      if slot.Absent? {
        return Ok(None);
      }
      if !ValidFiletime(slot.version) {
        return Err(InvalidMetadata);
      }
      r := Ok(Some(Reference(STORE_ID, slot.version)));
    }

    /** The helper's read: it refuses an absent slot and a blob of impossible size. */
    method Read() returns (r: Result<Bytes, LocalError>)
      requires SlotValid()
      modifies `step, `slot, `lastWrite, `log
      ensures SlotValid() && old(log) <= log && lastWrite >= old(lastWrite) && step == old(step) + 1
      ensures r.Ok? ==> slot.Present? && r.value == slot.blob
      ensures r.Err? ==> r.error in {StoreUnavailable, StoreFailed}
      ensures old(Quiet(1)) ==> slot == old(slot) && log == old(log) && lastWrite == old(lastWrite)
      ensures old(Quiet(1)) && slot.Present? && 1 <= |slot.blob| <= MAX_PAYLOAD ==> r.Ok?
    {
      assert Quiet(1) ==> rivals(step) == [] && helper(step) == Works;
      Interfere();
      if Outcome().Some? {
        return Err(Outcome().value);
      }
      if slot.Absent? || |slot.blob| < 1 || |slot.blob| > MAX_PAYLOAD {
        return Err(StoreFailed);
      }
      r := Ok(slot.blob);
    }

    /** The helper's write. */
    method StoreBlob(payload: Bytes) returns (r: Result<(), LocalError>)
      requires SlotValid()
      modifies `step, `slot, `lastWrite, `log
      ensures SlotValid() && old(log) <= log && lastWrite >= old(lastWrite) && step == old(step) + 1
      ensures r.Ok? ==> slot == Present(lastWrite, payload) && lastWrite > old(lastWrite)
      ensures r.Err? ==> r.error in {StoreUnavailable, StoreFailed}
      ensures old(Quiet(1)) ==> r.Ok? && lastWrite == old(lastWrite) + 1 + later(old(step))
    {
      assert Quiet(1) ==> rivals(step) == [] && helper(step) == Works;
      Interfere();
      if helper(step - 1).Works? || helper(step - 1).effective {
        Write(payload, later(step - 1));
      }
      r := if Outcome().Some? then Err(Outcome().value) else Ok(());
    }

    /** store: on success the slot holds exactly the payload, at the returned write
        time, which is newer than everything that was there before. */
    method Store(m: Material) returns (r: Result<Reference, LocalError>)
      requires SlotValid()
      modifies `step, `slot, `lastWrite, `log
      ensures SlotValid() && old(log) <= log
      ensures !Usable(m) || |encode(m)| > MAX_PAYLOAD ==> r == Err(InvalidPayload) && log == old(log)
      ensures r.Ok? ==>
                && Usable(m) && slot == Present(r.value.lastWritten, encode(m))
                && r.value.store_id == STORE_ID && ValidFiletime(r.value.lastWritten)
                && r.value.lastWritten > old(lastWrite)
      ensures old(Quiet(4)) && Usable(m) && 1 <= |encode(m)| <= MAX_PAYLOAD && ValidFiletime(old(lastWrite) + 1 + later(old(step))) ==> r.Ok?
      ensures old(Quiet(4)) && r.Ok? ==> step == old(step) + 4
    {
      hide ValidFiletime, Usable, Ordered, Bounded, CheckMaterial, Same, QuietFrom;
      UsableIsChecked(m);
      QuietCalls();
      var validated := CheckMaterial(JsonOf(m));
      if validated.Err? {
        return Err(InvalidPayload);
      }
      var payload := encode(validated.value);
      if |payload| > MAX_PAYLOAD {
        return Err(InvalidPayload);
      }
      var stored := StoreBlob(payload);
      if stored.Err? {
        return Err(stored.error);
      }
      ghost var wrote := |log| - 1;
      var before := Metadata();
      if before.Err? {
        return Err(before.error);
      }
      if before.value.None? {
        return Err(StoreFailed);
      }
      ghost var first := |log| - 1;
      var observed := Read();
      if observed.Err? {
        return Err(observed.error);
      }
      ghost var read := |log| - 1;
      var after := Metadata();
      if after.Err? {
        return Err(after.error);
      }
      if after.value != before.value {
        return Err(StoreFailed);
      }
      if observed.value != payload {
        return Err(StoreFailed);
      }
      OneStateBetween(first, read, wrote);
      r := Ok(before.value.value);
    }

    lemma OneStateBetween(first: nat, read: nat, wrote: nat)
      requires SlotValid() && wrote <= first <= read < |log|
      requires log[first].Present? && slot.Present? && log[first].version == slot.version && log[wrote].Present?
      ensures log[read] == slot && log[wrote].version <= slot.version
    {
      Sandwich(log, first, read, |log|-1);
      assert wrote <= |log|-1 && log[wrote].Present? && log[|log|-1].Present?;
    }

    /** discover: mints one capability for the write time it saw. */
    method Discover(a: Authority) returns (r: Result<LocalDiscoveryResult, LocalError>)
      requires Valid()
      modifies this
      ensures Valid() && old(log) <= log
      ensures r.Err? ==> provenance == old(provenance) && seenAt == old(seenAt)
      ensures r.Ok? ==>
                && ValidAuthority(a) && fresh(r.value) && slot.Present? && r.value.credentialSource == Reference(STORE_ID, slot.version)
                && provenance == old(provenance)[r.value := (a, Reference(STORE_ID, slot.version))]
                && seenAt == old(seenAt)[r.value := |log|-1]
      ensures old(Quiet(1)) && ValidAuthority(a) && old(slot).Present? && ValidFiletime(old(slot).version) ==>
                r.Ok? && slot == old(slot) && log == old(log) && step == old(step) + 1
    {
      hide ValidAuthority, ValidFiletime, Ordered, Bounded, Traced;
      if !ValidAuthority(a) {
        return Err(InvalidAuthority);
      }
      var seen := Metadata();
      TracedGrows(provenance, seenAt, old(log), log);
      if seen.Err? {
        return Err(seen.error);
      }
      if seen.value.None? {
        return Err(MaterialMissing);
      }
      var reference := seen.value.value;
      var result := new LocalDiscoveryResult(reference, reference);
      assert Genuine(result, a, reference, |log|-1, log);
      TracedWith(provenance, seenAt, log, result, a, reference, |log|-1);
      provenance := provenance[result := (a, reference)];
      seenAt := seenAt[result := |log|-1];
      r := Ok(result);
    }

    lemma StillThere(at: nat, read: nat)
      requires SlotValid() && at <= read < |log| && log[at].Present? && slot.Present? && log[at].version == slot.version
      ensures Same(log, at, |log|-1) && log[read] == slot
    {
      Sandwich(log, at, read, |log|-1);
    }

    /** The metadata, read, metadata sequence of extract. `at` is where the expected
        version was seen. */
    method ReadVersion(expected: Reference, ghost at: nat) returns (r: Result<Bytes, LocalError>)
      requires SlotValid() && at < |log| && log[at].Present? && expected == Reference(STORE_ID, log[at].version)
      modifies `step, `slot, `lastWrite, `log
      ensures SlotValid() && old(log) <= log
      ensures r.Ok? ==> Same(log, at, |log|-1) && slot == log[at] && r.value == slot.blob
      ensures r == Err(SourceChanged) ==> exists k :: at <= k < |log| && log[k] != log[at]
      ensures r.Err? ==> r.error in {SourceChanged, InvalidMetadata, StoreUnavailable, StoreFailed}
      ensures old(Quiet(3)) && old(slot) == old(log)[at] && ValidFiletime(old(slot).version) && 1 <= |old(slot).blob| <= MAX_PAYLOAD ==>
                r.Ok? && slot == old(slot)
    {
      hide ValidFiletime, Ordered, Bounded, Same;
      var before := Metadata();
      if before.Err? {
        return Err(before.error);
      }
      if before.value != Some(expected) {
        return Err(SourceChanged);
      }
      var payload := Read();
      if payload.Err? {
        return Err(payload.error);
      }
      ghost var read := |log| - 1;
      var after := Metadata();
      if after.Err? {
        return Err(after.error);
      }
      if after.value != Some(expected) {
        return Err(SourceChanged);
      }
      StillThere(at, read);
      r := Ok(payload.value);
    }

    /** extract: spends the capability, and returns the value that was in the slot when
        the result was discovered, which nobody has touched up to the second check. */
    method Extract(a: Authority, result: LocalDiscoveryResult) returns (r: Result<Material, LocalError>)
      requires Valid()
      modifies this
      ensures Valid() && old(log) <= log
      ensures !ValidAuthority(a) ==> r == Err(InvalidAuthority) && provenance == old(provenance)
      ensures ValidAuthority(a) ==> provenance == old(provenance) - {result}
      ensures result !in old(provenance) ==> r == Err(if ValidAuthority(a) then ProvenanceRequired else InvalidAuthority) && step == old(step)
      ensures result in old(provenance) && ValidAuthority(a) ==> (r == Err(ProvenanceRequired) <==> a != old(provenance)[result].0)
      ensures r.Ok? ==>
                && result in old(provenance) && a == old(provenance)[result].0
                && Same(log, old(seenAt)[result], |log|-1) && slot.Present? && slot.version == result.credentialSource.lastWritten
                && decode(slot.blob).Some? && CheckMaterial(decode(slot.blob).value) == Ok(r.value) && r.value.email == a.account_email
      ensures r == Err(SourceChanged) ==>
                result in old(provenance) && exists k :: old(seenAt)[result] <= k < |log| && log[k] != log[old(seenAt)[result]]
      ensures old(Quiet(3)) && result in old(provenance) && a == old(provenance)[result].0
              && old(slot) == old(log)[old(seenAt)[result]] && Readable(old(slot), a.account_email) ==>
                r.Ok? && slot == old(slot)
    {
      hide ValidAuthority, ValidFiletime, Ordered, Bounded, CheckMaterial, Traced, Same;
      if result in provenance {
        TracedWithout(provenance, seenAt, log, result);
      }
      if !ValidAuthority(a) {
        return Err(InvalidAuthority);
      }
      if result !in provenance {
        return Err(ProvenanceRequired);
      }
      var (original, expected) := provenance[result];
      ghost var at := seenAt[result];
      provenance := provenance - {result};
      seenAt := seenAt - {result};
      if a != original || result.credentialSource != expected || result.backupCodeSource != expected {
        return Err(ProvenanceRequired);
      }
      var payload := ReadVersion(expected, at);
      TracedGrows(provenance, seenAt, old(log), log);
      if payload.Err? {
        return Err(payload.error);
      }
      var decoded := decode(payload.value);
      if decoded.None? {
        return Err(InvalidPayload);
      }
      var material := CheckMaterial(decoded.value);
      if material.Err? {
        return Err(material.error);
      }
      if material.value.email != a.account_email {
        return Err(AccountMismatch);
      }
      r := Ok(material.value);
    }

    /** Left alone, what is stored is what is extracted; and only once. */
    method StoreDiscoverExtract(m: Material, a: Authority) returns (first: Result<Material, LocalError>, second: Result<Material, LocalError>)
      requires Valid() && Quiet(8)
      requires Usable(m) && ValidAuthority(a) && a.account_email == m.email
      requires decode(encode(m)) == Some(JsonOf(m)) && 1 <= |encode(m)| <= MAX_PAYLOAD
      requires ValidFiletime(lastWrite + 1 + later(step))
      modifies this
      ensures Valid() && first == Ok(m) && second == Err(ProvenanceRequired)
    {
      hide ValidAuthority, ValidFiletime, Ordered, Bounded, CheckMaterial, Usable, Traced, Same;
      UsableIsChecked(m);
      var stored := Store(m);
      TracedGrows(provenance, seenAt, old(log), log);
      var found := Discover(a);
      first := Extract(a, found.value);
      second := Extract(a, found.value);
    }
  }
}
