/** The message parser `_material` (scripts/private-slack-discovery.py:112-176): a
    lenient mode for discovery and a strict mode for extraction. */
module SlackMaterial {
  import opened JsValues
  import opened SlackText

  datatype SlackError =
    | AuthorityMismatch | ScopeMismatch | RequestFailed | Incomplete | InvalidResponse | InvalidMessage
    | UninspectedThread | AmbiguousCandidates | AmbiguousAccount | AmbiguousMaterial | CandidatesNotFound
    | InvalidAuthority | Failed | ProvenanceRequired | SourceChanged

  const MAX_TEXT: nat := 32768

  /** A message text after HTML unescaping and line splitting. `context` says whether
      it mentions the login host. */
  datatype Text = NotText | Text(length: nat, context: bool, lines: seq<string>)

  datatype Material = Material(password: Option<string>, backups: seq<string>)

  const NOTHING: Material := Material(None, [])

  /** A backup code and the line it was read from. */
  datatype Mark = Mark(line: nat, code: string)

  datatype Found = Found(accounts: seq<string>, passwords: seq<string>, marks: seq<Mark>)

  const NO_FIELDS: Found := Found([], [], [])

  function Codes(marks: seq<Mark>): (r: seq<string>)
    ensures |r| == |marks| && forall i :: 0 <= i < |marks| ==> r[i] == marks[i].code
  {
    seq(|marks|, i requires 0 <= i < |marks| => marks[i].code)
  }

  const MAILTO := "<mailto:"

  function BarIn(s: string): (i: nat)
    ensures i <= |s| && (i < |s| ==> s[i] == '|') && forall k :: 0 <= k < i ==> s[k] != '|'
  {
    if s == "" || s[0] == '|' then 0 else 1 + BarIn(s[1..])
  }

  /** The address and the optional label of `<mailto:address|label>`. */
  function MailtoParts(value: string): Option<(string, Option<string>)> {
    if |value| > |MAILTO| + 1 && value[..|MAILTO|] == MAILTO && value[|value|-1] == '>' then
      var inner := value[|MAILTO|..|value|-1];
      var bar := BarIn(inner);
      if '>' in inner || bar == 0 || bar == |inner| - 1 then None
      else if bar == |inner| then Some((inner, None))
      else Some((inner[..bar], Some(inner[bar+1..])))
    else None
  }

  function AccountOf(value: string): Result<string, SlackError> {
    match MailtoParts(value)
    case None => Ok(Lower(value))
    case Some((address, shown)) =>
      if shown.Some? && shown.value != address then Err(AmbiguousAccount) else Ok(Lower(address))
  }

  predicate IsControl(c: char) {
    c < ' ' || c == '\U{007F}'
  }

  const REDACTIONS: set<string> := {"redacted", "[redacted]", "<redacted>"}

  /** A password as it may be returned: no white space at either end, no control
      character, no redaction word in any case, and not only stars. */
  ghost predicate CleanPassword(p: string) {
    && p != "" && !IsSpace(p[0]) && !IsSpace(p[|p|-1])
    && (forall c :: c in p ==> !IsControl(c))
    && Lower(p) !in REDACTIONS
    && (exists c :: c in p && c != '*')
  }

  /** The literal password after one optional separator space; None when the line
      carries no usable one. */
  function PasswordOf(raw: string): (r: Result<Option<string>, SlackError>)
    ensures r.Ok? && r.value.Some? ==> r.value.value != ""
  {
    var value := if raw != "" && raw[0] == ' ' then raw[1..] else raw;
    if value != Strip(value, IsSpace) || (exists c :: c in value && IsControl(c)) then Err(AmbiguousMaterial)
    else if value == "" || Lower(value) in REDACTIONS || Strip(value, IsStar) == "" then Ok(None)
    else Ok(Some(value))
  }

  lemma {:induction false} StripRightShortens(s: string, drop: char -> bool)
    ensures |StripRight(s, drop)| <= |s|
  {
    if s != "" && drop(s[|s|-1]) {
      StripRightShortens(s[..|s|-1], drop);
    }
  }

  lemma {:induction false} StripLeftShortens(s: string, drop: char -> bool)
    ensures |StripLeft(s, drop)| <= |s|
  {
    if s != "" && drop(s[0]) {
      StripLeftShortens(s[1..], drop);
    }
  }

  /** What stripping leaves alone has nothing to strip at either end. */
  lemma StrippedEnds(s: string, drop: char -> bool)
    requires s != "" && Strip(s, drop) == s
    ensures !drop(s[0]) && !drop(s[|s|-1])
  {
    StripRightShortens(StripLeft(s, drop), drop);
    if drop(s[0]) {
      StripLeftShortens(s[1..], drop);
    } else if drop(s[|s|-1]) {
      StripRightShortens(s[..|s|-1], drop);
    }
  }

  lemma {:induction false} OnlyDroppedStripsAway(s: string, drop: char -> bool)
    requires forall c :: c in s ==> drop(c)
    ensures StripLeft(s, drop) == ""
  {
    if s != "" {
      OnlyDroppedStripsAway(s[1..], drop);
    }
  }

  lemma PasswordIsClean(raw: string)
    ensures PasswordOf(raw).Ok? && PasswordOf(raw).value.Some? ==> CleanPassword(PasswordOf(raw).value.value)
  {
    var r := PasswordOf(raw);
    if r.Ok? && r.value.Some? {
      var value := r.value.value;
      StrippedEnds(value, IsSpace);
      if forall c :: c in value ==> c == '*' {
        OnlyDroppedStripsAway(value, IsStar);
      }
    }
  }

  /** Where the run of code lines that starts at `k` ends. */
  function RunEnd(lines: seq<string>, k: nat): (end: nat)
    requires k <= |lines|
    ensures k <= end <= |lines|
    ensures forall j :: k <= j < end ==> IsCode(Candidate(lines[j]))
    ensures end < |lines| ==> !IsCode(Candidate(lines[end]))
    decreases |lines| - k
  {
    if k == |lines| || !IsCode(Candidate(lines[k])) then k else RunEnd(lines, k + 1)
  }

  function RunMarks(lines: seq<string>, k: nat, end: nat): (r: seq<Mark>)
    requires k <= end <= |lines|
    ensures |r| == end - k && forall j :: 0 <= j < end - k ==> r[j] == Mark(k + j, Candidate(lines[k + j]))
  {
    seq(end - k, j requires 0 <= j < end - k => Mark(k + j, Candidate(lines[k + j])))
  }

  /** Whether the run after an empty label stops at a line that is neither blank, nor
      a field, nor a code. */
  predicate StopsAtNoise(lines: seq<string>, end: nat) {
    end < |lines| && Strip(lines[end], IsSpace) != "" && FieldOf(lines[end]).None?
  }

  /** A backup-code label that strict mode refuses: a value that is no code, or an
      empty value followed by no code or by noise. */
  predicate Loose(lines: seq<string>, i: nat)
    requires i < |lines|
  {
    var f := FieldOf(lines[i]);
    && f.Some? && f.value.kind.BackupCodes?
    && !IsCode(FieldValue(f.value))
    && (FieldValue(f.value) != "" || RunEnd(lines, i + 1) == i + 1 || StopsAtNoise(lines, RunEnd(lines, i + 1)))
  }

  /** One step of the line loop. */
  function ScanLine(lines: seq<string>, i: nat, strict: bool, found: Found): Result<Found, SlackError>
    requires i < |lines|
  {
    match FieldOf(lines[i])
    case None => Ok(found)
    case Some(f) =>
      match f.kind
      case Account =>
        (match AccountOf(FieldValue(f))
         case Ok(account) => Ok(found.(accounts := found.accounts + [account]))
         case Err(e) => Err(e))
      case Password =>
        (match PasswordOf(f.raw)
         case Ok(Some(password)) => Ok(found.(passwords := found.passwords + [password]))
         case Ok(None) => Ok(found)
         case Err(e) => Err(e))
      case BackupCodes =>
        if strict && Loose(lines, i) then Err(AmbiguousMaterial)
        else if IsCode(FieldValue(f)) then Ok(found.(marks := found.marks + [Mark(i, FieldValue(f))]))
        else if FieldValue(f) == "" then Ok(found.(marks := found.marks + RunMarks(lines, i + 1, RunEnd(lines, i + 1))))
        else Ok(found)
  }

  function ScanFrom(lines: seq<string>, i: nat, strict: bool, found: Found): Result<Found, SlackError>
    requires i <= |lines|
    decreases |lines| - i
  {
    if i == |lines| then Ok(found)
    else
      match ScanLine(lines, i, strict, found)
      case Ok(next) => ScanFrom(lines, i + 1, strict, next)
      case Err(e) => Err(e)
  }

  /** What the collected fields amount to for `account`. */
  function Conclude(found: Found, account: string): Result<Material, SlackError> {
    if found.passwords == [] && found.marks == [] then Ok(NOTHING)
    else if found.accounts == [] || (exists a :: a in found.accounts && (!IsEmail(a) || a != found.accounts[0])) then Err(AmbiguousAccount)
    else if found.accounts[0] != account then Ok(NOTHING)
    else if |found.passwords| > 1 then Err(AmbiguousCandidates)
    else Ok(Material(if found.passwords == [] then None else Some(found.passwords[0]), Codes(found.marks)))
  }

  function MaterialOf(text: Text, account: string, strict: bool): Result<Material, SlackError> {
    if text.NotText? || text.length > MAX_TEXT then Err(InvalidMessage)
    else if !text.context then Ok(NOTHING)
    else
      match ScanFrom(text.lines, 0, strict, NO_FIELDS)
      case Ok(found) => Conclude(found, account)
      case Err(e) => Err(e)
  }

  /** The codes on the lines from `first` on, up to the first line that is none. */
  method CollectRun(lines: seq<string>, first: nat) returns (codes: seq<string>, next: nat)
    requires first <= |lines|
    ensures next == RunEnd(lines, first) && codes == Codes(RunMarks(lines, first, next))
  {
    hide IsCode, Candidate;
    codes, next := [], first;
    while next < |lines| && IsCode(Candidate(lines[next]))
      invariant first <= next <= |lines| && RunEnd(lines, first) == RunEnd(lines, next)
      invariant codes == Codes(RunMarks(lines, first, next))
    {
      codes := codes + [Candidate(lines[next])];
      next := next + 1;
    }
  }

  /** The line loop: fields line by line, and below an empty backup-code label the
      codes on the lines that follow. */
  method CollectFields(lines: seq<string>, strict: bool)
    returns (r: Result<(seq<string>, seq<string>, seq<string>), SlackError>, ghost found: Found)
    ensures r.Ok? ==>
              && ScanFrom(lines, 0, strict, NO_FIELDS) == Ok(found)
              && r.value == (found.accounts, found.passwords, Codes(found.marks))
    ensures r.Err? ==> ScanFrom(lines, 0, strict, NO_FIELDS) == Err(r.error)
  {
    hide FieldOf, FieldValue, AccountOf, PasswordOf, IsCode, Candidate, Strip, RunEnd;
    var accounts, passwords, backups: seq<string> := [], [], [];
    found := NO_FIELDS;
    for index := 0 to |lines|
      invariant found.accounts == accounts && found.passwords == passwords && Codes(found.marks) == backups
      invariant ScanFrom(lines, 0, strict, NO_FIELDS) == ScanFrom(lines, index, strict, found)
    {
      var field := FieldOf(lines[index]);
      if field.None? {
        continue;
      }
      var value := FieldValue(field.value);
      match field.value.kind
      case Account =>
        var parsed := AccountOf(value);
        if parsed.Err? {
          return Err(parsed.error), found;
        }
        accounts := accounts + [parsed.value];
        found := found.(accounts := accounts);
      case Password =>
        var parsed := PasswordOf(field.value.raw);
        if parsed.Err? {
          return Err(parsed.error), found;
        }
        if parsed.value.Some? {
          passwords := passwords + [parsed.value.value];
          found := found.(passwords := passwords);
        }
      case BackupCodes =>
        if IsCode(value) {
          backups := backups + [value];
          found := found.(marks := found.marks + [Mark(index, value)]);
        } else if value == "" {
          var codes, next := CollectRun(lines, index + 1);
          if strict && (StopsAtNoise(lines, next) || codes == []) {
            return Err(AmbiguousMaterial), found;
          }
          backups := backups + codes;
          found := found.(marks := found.marks + RunMarks(lines, index + 1, next));
        } else if strict {
          return Err(AmbiguousMaterial), found;
        }
    }
    r := Ok((accounts, passwords, backups));
  }

  /** `_material` with its loops. */
  method ParseMaterial(text: Text, account: string, strict: bool) returns (r: Result<Material, SlackError>)
    ensures r == MaterialOf(text, account, strict)
  {
    hide ScanFrom, IsEmail;
    if text.NotText? || text.length > MAX_TEXT {
      return Err(InvalidMessage);
    }
    if !text.context {
      return Ok(NOTHING);
    }
    var fields, found := CollectFields(text.lines, strict);
    if fields.Err? {
      return Err(fields.error);
    }
    var (accounts, passwords, backups) := fields.value;
    if passwords == [] && backups == [] {
      return Ok(NOTHING);
    }
    if accounts == [] || (exists a :: a in accounts && (!IsEmail(a) || a != accounts[0])) {
      return Err(AmbiguousAccount);
    }
    if accounts[0] != account {
      return Ok(NOTHING);
    }
    if |passwords| > 1 {
      return Err(AmbiguousCandidates);
    }
    r := Ok(Material(if passwords == [] then None else Some(passwords[0]), backups));
  }

  lemma StrictLine(lines: seq<string>, i: nat, found: Found)
    requires i < |lines|
    ensures ScanLine(lines, i, true, found) == if Loose(lines, i) then Err(AmbiguousMaterial) else ScanLine(lines, i, false, found)
  {
    hide FieldOf, FieldValue, AccountOf, PasswordOf, IsCode, RunEnd, StopsAtNoise;
  }

  /** Strict mode either refuses a loose label or agrees with lenient mode, step by step. */
  lemma {:induction false} StrictScan(lines: seq<string>, i: nat, found: Found)
    requires i <= |lines|
    ensures (exists k :: i <= k < |lines| && Loose(lines, k)) && ScanFrom(lines, i, false, found).Ok? ==>
              ScanFrom(lines, i, true, found) == Err(AmbiguousMaterial)
    ensures !(exists k :: i <= k < |lines| && Loose(lines, k)) ==> ScanFrom(lines, i, true, found) == ScanFrom(lines, i, false, found)
    ensures ScanFrom(lines, i, true, found).Ok? ==> ScanFrom(lines, i, false, found) == ScanFrom(lines, i, true, found)
    decreases |lines| - i
  {
    hide Loose, ScanLine;
    if i < |lines| {
      StrictLine(lines, i, found);
      var next := ScanLine(lines, i, false, found);
      if next.Ok? {
        StrictScan(lines, i + 1, next.value);
      }
    }
  }

  /** Strict parsing succeeds exactly when lenient parsing does and no label is
      loose, and then both return the same material. */
  lemma StrictAgreesWithLenient(text: Text, account: string)
    ensures var strict, lenient := MaterialOf(text, account, true), MaterialOf(text, account, false);
            && (strict.Ok? ==> strict == lenient)
            && (strict.Ok? <==> lenient.Ok? && (text.context ==> forall k :: 0 <= k < |text.lines| ==> !Loose(text.lines, k)))
  {
    if text.Text? {
      StrictScan(text.lines, 0, NO_FIELDS);
    }
  }

  /** The marks so far were read from distinct lines below `i`, in order, each line
      being either a field with an inline code or a code line; the lines from `i` to
      `reach` are code lines that are already taken. */
  ghost predicate Disjoint(lines: seq<string>, marks: seq<Mark>) {
    && (forall a, b :: 0 <= a < b < |marks| ==> marks[a].line < marks[b].line)
    && (forall a :: 0 <= a < |marks| ==> marks[a].line < |lines| && ReadFrom(lines[marks[a].line], marks[a].code))
  }

  /** How a code stands on its line. */
  predicate ReadFrom(line: string, code: string) {
    && IsCode(code)
    && if FieldOf(line).Some? then FieldOf(line).value.kind.BackupCodes? && code == FieldValue(FieldOf(line).value)
       else code == Candidate(line)
  }

  /** No mark lies on a line the scan can still collect from. */
  ghost predicate Behind(lines: seq<string>, i: nat, marks: seq<Mark>) {
    forall a :: 0 <= a < |marks| ==>
      marks[a].line < i || (forall j :: i <= j <= marks[a].line && j < |lines| ==> IsCode(Candidate(lines[j])))
  }

  lemma MarksJoin(lines: seq<string>, i: nat, marks: seq<Mark>, more: seq<Mark>, first: nat)
    requires Disjoint(lines, marks) && i <= first && forall a :: 0 <= a < |marks| ==> marks[a].line < i
    requires forall b :: 0 <= b < |more| ==> more[b].line == first + b < |lines| && ReadFrom(lines[first + b], more[b].code)
    ensures Disjoint(lines, marks + more)
  {
    hide ReadFrom;
    var all := marks + more;
    forall a | 0 <= a < |all| ensures all[a].line < |lines| && ReadFrom(lines[all[a].line], all[a].code) {
      assert a >= |marks| ==> all[a] == more[a - |marks|];
    }
  }

  lemma BehindJoin(lines: seq<string>, i: nat, marks: seq<Mark>, more: seq<Mark>)
    requires forall a :: 0 <= a < |marks| ==> marks[a].line < i
    requires Behind(lines, i, more)
    ensures Behind(lines, i, marks + more)
  {
    hide IsCode, Candidate;
  }

  lemma BehindStep(lines: seq<string>, i: nat, marks: seq<Mark>)
    requires Behind(lines, i, marks)
    ensures Behind(lines, i + 1, marks)
    ensures i < |lines| && !IsCode(Candidate(lines[i])) ==> forall a :: 0 <= a < |marks| ==> marks[a].line < i
  {
    hide IsCode, Candidate;
  }

  lemma OwnCode(lines: seq<string>, i: nat, marks: seq<Mark>, code: string)
    requires i < |lines| && Disjoint(lines, marks) && ReadFrom(lines[i], code) && forall a :: 0 <= a < |marks| ==> marks[a].line < i
    ensures Disjoint(lines, marks + [Mark(i, code)]) && Behind(lines, i + 1, marks + [Mark(i, code)])
  {
    hide ReadFrom, Disjoint, IsCode, Candidate;
    MarksJoin(lines, i, marks, [Mark(i, code)], i);
  }

  lemma RunJoins(lines: seq<string>, i: nat, marks: seq<Mark>)
    requires i < |lines| && Disjoint(lines, marks) && forall a :: 0 <= a < |marks| ==> marks[a].line < i
    ensures var all := marks + RunMarks(lines, i + 1, RunEnd(lines, i + 1));
            Disjoint(lines, all) && Behind(lines, i + 1, all)
  {
    hide ReadFrom, Disjoint, IsCode, Candidate;
    RunIsReadable(lines, i + 1);
    var more := RunMarks(lines, i + 1, RunEnd(lines, i + 1));
    MarksJoin(lines, i, marks, more, i + 1);
    BehindJoin(lines, i + 1, marks, more);
  }

  lemma MarksStep(lines: seq<string>, i: nat, strict: bool, found: Found)
    requires i < |lines| && Disjoint(lines, found.marks) && Behind(lines, i, found.marks)
    requires ScanLine(lines, i, strict, found).Ok?
    ensures Disjoint(lines, ScanLine(lines, i, strict, found).value.marks)
    ensures Behind(lines, i + 1, ScanLine(lines, i, strict, found).value.marks)
  {
    hide FieldOf, FieldValue, AccountOf, PasswordOf, IsCode, Candidate, Loose, Disjoint, Behind, ReadFrom, RunEnd, RunMarks;
    BehindStep(lines, i, found.marks);
    if FieldOf(lines[i]).Some? {
      FieldIsNeverCode(lines[i]);
      var f := FieldOf(lines[i]).value;
      if f.kind.BackupCodes? && IsCode(FieldValue(f)) {
        InlineIsReadable(lines[i]);
        OwnCode(lines, i, found.marks, FieldValue(f));
      } else if f.kind.BackupCodes? && FieldValue(f) == "" {
        RunJoins(lines, i, found.marks);
      }
    }
  }

  lemma InlineIsReadable(line: string)
    requires FieldOf(line).Some? && FieldOf(line).value.kind.BackupCodes? && IsCode(FieldValue(FieldOf(line).value))
    ensures ReadFrom(line, FieldValue(FieldOf(line).value))
  {
    hide FieldOf, FieldValue, IsCode, Candidate;
  }

  lemma RunIsReadable(lines: seq<string>, k: nat)
    requires k <= |lines|
    ensures forall j :: k <= j < RunEnd(lines, k) ==> ReadFrom(lines[j], Candidate(lines[j]))
  {
    hide FieldOf, FieldValue, IsCode, Candidate;
    forall j | k <= j < RunEnd(lines, k) ensures ReadFrom(lines[j], Candidate(lines[j])) {
      if FieldOf(lines[j]).Some? {
        FieldIsNeverCode(lines[j]);
      }
    }
  }

  lemma {:induction false} MarksStayDisjoint(lines: seq<string>, i: nat, strict: bool, found: Found)
    requires i <= |lines| && Disjoint(lines, found.marks) && Behind(lines, i, found.marks)
    requires ScanFrom(lines, i, strict, found).Ok?
    ensures Disjoint(lines, ScanFrom(lines, i, strict, found).value.marks)
    decreases |lines| - i
  {
    hide ScanLine, Disjoint, Behind;
    if i < |lines| {
      MarksStep(lines, i, strict, found);
      MarksStayDisjoint(lines, i + 1, strict, ScanLine(lines, i, strict, found).value);
    }
  }

  /** The collected codes come from lines of their own, in line order: the nested
      scan never reads a line twice, so there are at most as many codes as lines. */
  lemma CodesComeFromOwnLines(text: Text, account: string, strict: bool) returns (from: seq<nat>)
    requires MaterialOf(text, account, strict).Ok?
    ensures var backups := MaterialOf(text, account, strict).value.backups;
            && |from| == |backups|
            && (backups != [] ==> |backups| <= |text.lines|)
            && (forall a, b :: 0 <= a < b < |from| ==> from[a] < from[b])
            && (forall a :: 0 <= a < |from| ==> text.Text? && from[a] < |text.lines| && ReadFrom(text.lines[from[a]], backups[a]))
  {
    hide ScanFrom, ReadFrom, IsEmail;
    from := [];
    if text.context {
      MarksStayDisjoint(text.lines, 0, strict, NO_FIELDS);
      var marks := ScanFrom(text.lines, 0, strict, NO_FIELDS).value.marks;
      var backups := MaterialOf(text, account, strict).value.backups;
      if backups != [] {
        assert backups == Codes(marks);
        from := seq(|marks|, a requires 0 <= a < |marks| => marks[a].line);
        StrictlyIncreasingIsShort(from, |text.lines|);
      }
    }
  }

  lemma {:induction false} StrictlyIncreasingIsShort(from: seq<nat>, bound: nat)
    requires forall a, b :: 0 <= a < b < |from| ==> from[a] < from[b]
    requires forall a :: 0 <= a < |from| ==> from[a] < bound
    ensures |from| <= bound
  {
    if from != [] {
      StrictlyIncreasingIsShort(from[..|from|-1], from[|from|-1]);
    }
  }

  lemma LineKeepsClean(lines: seq<string>, i: nat, strict: bool, found: Found)
    requires i < |lines| && ScanLine(lines, i, strict, found).Ok?
    requires forall p :: p in found.passwords ==> CleanPassword(p)
    ensures forall p :: p in ScanLine(lines, i, strict, found).value.passwords ==> CleanPassword(p)
  {
    hide CleanPassword, FieldOf, FieldValue, AccountOf, PasswordOf, Loose;
    var field := FieldOf(lines[i]);
    if field.Some? {
      PasswordIsClean(field.value.raw);
    }
  }

  /** Whatever the parser reports as found is really there: clean passwords and
      well-formed codes. */
  lemma {:induction false} FoundIsUsable(lines: seq<string>, i: nat, strict: bool, found: Found)
    requires i <= |lines| && ScanFrom(lines, i, strict, found).Ok?
    requires forall p :: p in found.passwords ==> CleanPassword(p)
    ensures forall p :: p in ScanFrom(lines, i, strict, found).value.passwords ==> CleanPassword(p)
    decreases |lines| - i
  {
    hide CleanPassword, ScanLine;
    if i < |lines| {
      LineKeepsClean(lines, i, strict, found);
      FoundIsUsable(lines, i + 1, strict, ScanLine(lines, i, strict, found).value);
    }
  }

  lemma MaterialIsUsable(text: Text, account: string, strict: bool)
    requires MaterialOf(text, account, strict).Ok?
    ensures var m := MaterialOf(text, account, strict).value;
            && (m.password.Some? ==> CleanPassword(m.password.value))
            && (forall c :: c in m.backups ==> IsCode(c) && c != "")
  {
    hide CleanPassword;
    if text.context {
      FoundIsUsable(text.lines, 0, strict, NO_FIELDS);
      var found := ScanFrom(text.lines, 0, strict, NO_FIELDS).value;
      assert found.passwords != [] ==> found.passwords[0] in found.passwords;
    }
    var from := CodesComeFromOwnLines(text, account, strict);
  }

  /** `_classify`: whether a message is a credential or a backup-code candidate. */
  function Classify(text: Text, account: string): Result<(bool, bool), SlackError> {
    match MaterialOf(text, account, false)
    case Ok(m) => Ok((m.password.Some? && m.password.value != "", m.backups != []))
    case Err(e) => Err(e)
  }
}
