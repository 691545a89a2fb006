/** The line syntax of private-slack-discovery.py: labelled fields, list marks and
    backup codes (scripts/private-slack-discovery.py:25-28, 107-109, 148-158). */
module SlackText {
  import opened JsValues

  /** What Python's `\s`, `str.strip` and `str.isspace` call white space. */
  predicate IsSpace(c: char) {
    || '\U{0009}' <= c <= '\U{000D}' || '\U{001C}' <= c <= ' '
    || c == '\U{0085}' || c == '\U{00A0}' || c == '\U{1680}' || '\U{2000}' <= c <= '\U{200A}'
    || c == '\U{2028}' || c == '\U{2029}' || c == '\U{202F}' || c == '\U{205F}' || c == '\U{3000}'
  }

  predicate IsQuote(c: char) { c == '\'' || c == '\"' || c == '`' }

  predicate IsStar(c: char) { c == '*' }

  predicate IsDigit(c: char) { '0' <= c <= '9' }

  predicate IsAlnum(c: char) { IsDigit(c) || 'a' <= c <= 'z' || 'A' <= c <= 'Z' }

  function LowerChar(c: char): char {
    if 'A' <= c <= 'Z' then c - 'A' + 'a' else c
  }

  /** str.lower on ASCII letters. */
  function Lower(s: string): (r: string)
    ensures |r| == |s|
  {
    seq(|s|, i requires 0 <= i < |s| => LowerChar(s[i]))
  }

  function StripLeft(s: string, drop: char -> bool): string {
    if s != "" && drop(s[0]) then StripLeft(s[1..], drop) else s
  }

  function StripRight(s: string, drop: char -> bool): string {
    if s != "" && drop(s[|s|-1]) then StripRight(s[..|s|-1], drop) else s
  }

  function Strip(s: string, drop: char -> bool): string {
    StripRight(StripLeft(s, drop), drop)
  }

  lemma {:induction false} StripLeftKeeps(s: string, drop: char -> bool, c: char)
    requires c in s && !drop(c)
    ensures c in StripLeft(s, drop)
  {
    if drop(s[0]) {
      StripLeftKeeps(s[1..], drop, c);
    }
  }

  lemma {:induction false} StripRightKeeps(s: string, drop: char -> bool, c: char)
    requires c in s && !drop(c)
    ensures c in StripRight(s, drop)
  {
    if drop(s[|s|-1]) {
      assert s == s[..|s|-1] + [s[|s|-1]];
      StripRightKeeps(s[..|s|-1], drop, c);
    }
  }

  lemma StripKeeps(s: string, drop: char -> bool, c: char)
    requires c in s && !drop(c)
    ensures c in Strip(s, drop)
  {
    StripLeftKeeps(s, drop, c);
    StripRightKeeps(StripLeft(s, drop), drop, c);
  }

  /** What follows a list mark (`-`, `*`, `12.` or `12)`) that `t` starts with. */
  function AfterMark(t: string): Option<string> {
    if t != "" && (t[0] == '-' || t[0] == '*') then Some(t[1..])
    else
      var rest := StripLeft(t, IsDigit);
      if rest != t && rest != "" && (rest[0] == '.' || rest[0] == ')') then Some(rest[1..]) else None
  }

  /** The text after a list mark and its white space; the whole text without one. */
  function DropListMark(s: string): string {
    var rest := AfterMark(StripLeft(s, IsSpace));
    if rest.Some? && rest.value != "" && IsSpace(rest.value[0]) then StripLeft(rest.value, IsSpace) else s
  }

  lemma ListMarkKeepsColon(s: string)
    requires ':' in s
    ensures ':' in DropListMark(s)
  {
    var t := StripLeft(s, IsSpace);
    StripLeftKeeps(s, IsSpace, ':');
    StripLeftKeeps(t, IsDigit, ':');
    var rest := AfterMark(t);
    if rest.Some? {
      StripLeftKeeps(rest.value, IsSpace, ':');
    }
  }

  /** What the nested scan reads as a code on a line below an empty label. */
  function Candidate(line: string): string {
    Strip(Strip(DropListMark(line), IsSpace), IsQuote)
  }

  function Compact(s: string): (r: string)
    ensures |r| <= |s|
    ensures forall c :: c in r <==> c in s && c != ' ' && c != '-'
  {
    if s == "" then ""
    else (if s[0] == ' ' || s[0] == '-' then "" else [s[0]]) + Compact(s[1..])
  }

  predicate IsCode(s: string) {
    var compact := Compact(s);
    && 6 <= |compact| <= 64
    && (forall c :: c in compact ==> IsAlnum(c))
    && (exists c :: c in compact && IsDigit(c))
  }

  datatype Kind = Account | Password | BackupCodes

  /** A labelled line: which label, and the raw text after its colon. */
  datatype Field = Field(kind: Kind, raw: string)

  /** The alternatives of the field pattern, in its order. */
  const LABELS: seq<(string, Kind)> := [
    ("account email", Account), ("email", Account), ("username", Account), ("account", Account),
    ("password", Password),
    ("backup codes", BackupCodes), ("backup code", BackupCodes), ("recovery codes", BackupCodes), ("recovery code", BackupCodes)]

  /** The line without white space and without a `-` or `*` mark in front. */
  function FieldBody(line: string): string {
    var t := StripLeft(line, IsSpace);
    if |t| > 1 && (t[0] == '-' || t[0] == '*') && IsSpace(t[1]) then StripLeft(t[1..], IsSpace) else t
  }

  /** The text after `name`, optional white space and a colon. */
  function AfterLabel(body: string, name: string): Option<string> {
    if |name| <= |body| && Lower(body[..|name|]) == name then
      var rest := StripLeft(body[|name|..], IsSpace);
      if rest != "" && rest[0] == ':' then Some(rest[1..]) else None
    else None
  }

  function FirstLabel(body: string, labels: seq<(string, Kind)>): Option<Field> {
    if labels == [] then None
    else
      var after := AfterLabel(body, labels[0].0);
      if after.Some? then Some(Field(labels[0].1, after.value)) else FirstLabel(body, labels[1..])
  }

  function FieldOf(line: string): Option<Field> {
    FirstLabel(FieldBody(line), LABELS)
  }

  lemma {:induction false} StripLeftIsSuffix(s: string, drop: char -> bool)
    ensures forall c :: c in StripLeft(s, drop) ==> c in s
  {
    if s != "" && drop(s[0]) {
      StripLeftIsSuffix(s[1..], drop);
    }
  }

  lemma {:induction false} LabelHasColon(body: string, labels: seq<(string, Kind)>)
    requires FirstLabel(body, labels).Some?
    ensures ':' in body
  {
    var name := labels[0].0;
    if AfterLabel(body, name).Some? {
      StripLeftIsSuffix(body[|name|..], IsSpace);
      assert ':' in StripLeft(body[|name|..], IsSpace);
    } else {
      LabelHasColon(body, labels[1..]);
    }
  }

  lemma FieldHasColon(line: string)
    requires FieldOf(line).Some?
    ensures ':' in line
  {
    LabelHasColon(FieldBody(line), LABELS);
    var t := StripLeft(line, IsSpace);
    StripLeftIsSuffix(line, IsSpace);
    if |t| > 1 { StripLeftIsSuffix(t[1..], IsSpace); }
  }

  /** The value of an account or backup-code label: trimmed, then unquoted. */
  function FieldValue(f: Field): string {
    Strip(Strip(f.raw, IsSpace), IsQuote)
  }

  /** A line that matches a label can never be read as a code, with or without a
      list mark in front: its colon survives everything the scan strips. */
  lemma FieldIsNeverCode(line: string)
    requires FieldOf(line).Some?
    ensures !IsCode(Candidate(line))
  {
    FieldHasColon(line);
    ListMarkKeepsColon(line);
    StripKeeps(DropListMark(line), IsSpace, ':');
    StripKeeps(Strip(DropListMark(line), IsSpace), IsQuote, ':');
    assert ':' in Compact(Candidate(line));
  }

  /** An email address as the account pattern reads it. */
  predicate IsEmail(s: string) {
    exists i :: 0 < i < |s| && IsEmailAt(s, i)
  }

  predicate IsEmailAt(s: string, i: nat)
    requires 0 < i < |s|
  {
    var domain := s[i+1..];
    && s[i] == '@'
    && (forall c :: c in s[..i] ==> LocalChar(c))
    && (forall c :: c in domain ==> DomainChar(c) || c == '.')
    && '.' in domain
    && domain[0] != '.' && domain[|domain|-1] != '.'
    && forall k :: 0 < k < |domain| && domain[k] == '.' ==> domain[k-1] != '.'
  }

  predicate LocalChar(c: char) {
    || 'a' <= c <= 'z' || IsDigit(c)
    || c in ".!#$%&'*+/=?^_`{|}~-"
  }

  predicate DomainChar(c: char) {
    'a' <= c <= 'z' || IsDigit(c) || c == '-'
  }
}
