/** Name mangling of the protocol compiler on ASCII names (cli/build.rs:171-203,
    291-333, 349-369), against serde's camelCase field rule. */
module CdpNames {
  import opened JsValues

  predicate Ascii(s: string) {
    forall c :: c in s ==> c < '\U{0080}'
  }

  predicate IsUpper(c: char) { 'A' <= c <= 'Z' }

  predicate IsLower(c: char) { 'a' <= c <= 'z' }

  predicate IsDigit(c: char) { '0' <= c <= '9' }

  function LowerOf(c: char): char {
    if IsUpper(c) then c - 'A' + 'a' else c
  }

  function UpperOf(c: char): char {
    if IsLower(c) then c - 'a' + 'A' else c
  }

  // ---------------------------------------------------------------- snake_case

  /** Where an underscore goes: before an uppercase letter that follows a
      non-uppercase character or starts the last word of an uppercase run. */
  predicate WordStart(s: string, i: nat)
    requires i < |s|
  {
    IsUpper(s[i]) && i > 0 && (!IsUpper(s[i-1]) || (i + 1 < |s| && IsLower(s[i+1])))
  }

  function SnakeFrom(s: string, i: nat): string
    requires i <= |s|
    decreases |s| - i
  {
    if i == |s| then ""
    else (if WordStart(s, i) then "_" else "") + [LowerOf(s[i])] + SnakeFrom(s, i + 1)
  }

  function Snake(s: string): string {
    SnakeFrom(s, 0)
  }

  /** What one character contributes. */
  function SnakePart(s: string, i: nat): string
    requires i < |s|
  {
    (if WordStart(s, i) then "_" else "") + [LowerOf(s[i])]
  }

  lemma SnakeStep(s: string, i: nat, before: string)
    requires i < |s|
    ensures SnakeFrom(s, i) == SnakePart(s, i) + SnakeFrom(s, i + 1)
    ensures before + SnakeFrom(s, i) == (before + SnakePart(s, i)) + SnakeFrom(s, i + 1)
  {}

  method ToSnakeCase(s: string) returns (r: string)
    ensures r == Snake(s)
  {
    hide SnakeFrom, LowerOf;
    r := "";
    for i := 0 to |s|
      invariant r + SnakeFrom(s, i) == Snake(s)
    {
      SnakeStep(s, i, r);
      ghost var before := r;
      if IsUpper(s[i]) && i > 0 {
        var prevUpper := IsUpper(s[i-1]);
        var nextLower := i + 1 < |s| && IsLower(s[i+1]);
        if !prevUpper || nextLower {
          r := r + ['_'];
        }
      }
      r := r + [LowerOf(s[i])];
      assert r == before + SnakePart(s, i);
    }
    SnakeEnd(s);
  }

  lemma SnakeEnd(s: string)
    ensures SnakeFrom(s, |s|) == ""
  {}

  // ---------------------------------------------------------------- serde

  /** serde's PascalCase rule for fields: drop underscores, capitalise after them. */
  function PascalField(s: string, capitalize: bool): string {
    if s == "" then ""
    else if s[0] == '_' then PascalField(s[1..], true)
    else [if capitalize then UpperOf(s[0]) else s[0]] + PascalField(s[1..], false)
  }

  /** serde's camelCase rule for fields. */
  function Camel(s: string): string {
    var pascal := PascalField(s, true);
    if pascal == "" then "" else [LowerOf(pascal[0])] + pascal[1..]
  }

  /** Names that survive the trip: no underscore, no leading capital, and every later
      capital at a word start. */
  predicate Plain(s: string) {
    && '_' !in s
    && (s != "" ==> !IsUpper(s[0]))
    && forall i :: 0 < i < |s| && IsUpper(s[i]) ==> WordStart(s, i)
  }

  /** What one character comes back as. */
  function Back(s: string, i: nat): char
    requires i < |s|
  {
    if WordStart(s, i) then UpperOf(LowerOf(s[i])) else LowerOf(s[i])
  }

  lemma PascalOfWord(c: char, rest: string)
    requires c != '_'
    ensures PascalField([c] + rest, false) == [c] + PascalField(rest, false)
    ensures PascalField("_" + [c] + rest, false) == [UpperOf(c)] + PascalField(rest, false)
  {
    assert ([c] + rest)[1..] == rest;
    assert ("_" + [c] + rest)[1..] == [c] + rest;
  }

  lemma {:induction false} PascalOfSnake(s: string, i: nat)
    requires i <= |s| && '_' !in s[i..]
    ensures var p := PascalField(SnakeFrom(s, i), false);
            |p| == |s| - i && forall k :: 0 <= k < |p| ==> p[k] == Back(s, i + k)
    decreases |s| - i
  {
    hide WordStart, PascalField, LowerOf, UpperOf;
    if i < |s| {
      assert s[i] == s[i..][0] && s[i..][1..] == s[i+1..];
      PascalOfSnake(s, i + 1);
      SnakeStep(s, i, "");
      LowerIsNoUnderscore(s[i]);
      PascalOfWord(LowerOf(s[i]), SnakeFrom(s, i + 1));
      assert "" + [LowerOf(s[i])] + SnakeFrom(s, i + 1) == [LowerOf(s[i])] + SnakeFrom(s, i + 1);
      var p, q := PascalField(SnakeFrom(s, i), false), PascalField(SnakeFrom(s, i + 1), false);
      assert p == [Back(s, i)] + q;
      forall k | 0 <= k < |p| ensures p[k] == Back(s, i + k) {
        assert k > 0 ==> p[k] == q[k-1];
      }
    } else {
      PascalOfNothing();
    }
  }

  lemma PascalOfNothing()
    ensures PascalField("", false) == ""
  {}

  lemma LowerIsNoUnderscore(c: char)
    requires c != '_'
    ensures LowerOf(c) != '_'
  {}

  ghost function Letters(s: string): nat {
    if s == "" then 0 else (if s[0] == '_' then 0 else 1) + Letters(s[1..])
  }

  lemma {:induction false} PascalLength(s: string, capitalize: bool)
    ensures |PascalField(s, capitalize)| == Letters(s)
  {
    if s != "" {
      PascalLength(s[1..], s[0] == '_');
    }
  }

  lemma {:induction false} SnakeAddsNoLetters(s: string, i: nat)
    requires i <= |s|
    ensures Letters(SnakeFrom(s, i)) == Letters(s[i..])
    decreases |s| - i
  {
    hide SnakeFrom, Letters, WordStart;
    if i == |s| {
      NoLettersAtEnd(s);
    } else {
      SnakeAddsNoLetters(s, i + 1);
      LettersStep(s[i], s[i+1..]);
      assert s[i..] == [s[i]] + s[i+1..];
      var rest := SnakeFrom(s, i + 1);
      LettersStep(LowerOf(s[i]), rest);
      LettersStep('_', [LowerOf(s[i])] + rest);
      SnakeUnfolds(s, i);
    }
  }

  lemma NoLettersAtEnd(s: string)
    ensures Letters(SnakeFrom(s, |s|)) == Letters(s[|s|..]) == 0
  {}

  lemma SnakeUnfolds(s: string, i: nat)
    requires i < |s|
    ensures var tail := [LowerOf(s[i])] + SnakeFrom(s, i + 1);
            SnakeFrom(s, i) == if WordStart(s, i) then ['_'] + tail else tail
  {}

  lemma LettersStep(c: char, rest: string)
    ensures Letters([c] + rest) == Letters(rest) + if c == '_' then 0 else 1
  {
    assert ([c] + rest)[1..] == rest;
  }

  lemma {:induction false} UnderscoresShorten(s: string)
    ensures Letters(s) <= |s|
    ensures '_' in s ==> Letters(s) < |s|
  {
    if s != "" {
      UnderscoresShorten(s[1..]);
    }
  }

  /** What comes back is the first character in lower case, then every later one. */
  lemma BackAgain(s: string)
    requires s != "" && '_' !in s
    ensures |Camel(Snake(s))| == |s| && Camel(Snake(s))[0] == LowerOf(UpperOf(LowerOf(s[0])))
    ensures forall i :: 0 < i < |s| ==> Camel(Snake(s))[i] == Back(s, i)
  {
    hide LowerOf, UpperOf, Back, WordStart;
    assert s[0..] == s && '_' !in s[1..] && s[0] in s;
    PascalOfSnake(s, 1);
    var rest := SnakeFrom(s, 1);
    SnakeStarts(s);
    LowerIsNoUnderscore(s[0]);
    CamelStarts(LowerOf(s[0]), rest);
  }

  lemma SnakeStarts(s: string)
    requires s != ""
    ensures Snake(s) == [LowerOf(s[0])] + SnakeFrom(s, 1)
  {}

  lemma CamelStarts(c: char, rest: string)
    requires c != '_'
    ensures Camel([c] + rest) == [LowerOf(UpperOf(c))] + PascalField(rest, false)
  {
    assert ([c] + rest)[1..] == rest;
  }

  lemma StaysItself(s: string, i: nat)
    requires 0 < i < |s| && Ascii(s)
    ensures Back(s, i) == s[i] <==> (IsUpper(s[i]) ==> WordStart(s, i))
  {
    assert s[i] in s;
  }

  lemma FirstStaysItself(s: string)
    requires s != "" && Ascii(s)
    ensures LowerOf(UpperOf(LowerOf(s[0]))) == s[0] <==> !IsUpper(s[0])
  {
    assert s[0] in s;
  }

  lemma UnderscoreIsLost(s: string)
    requires s != "" && '_' in s
    ensures Camel(Snake(s)) != s
  {
    SnakeAddsNoLetters(s, 0);
    assert s[0..] == s;
    UnderscoresShorten(s);
    PascalLength(Snake(s), true);
  }

  /** The wire name of a field is the protocol's own name exactly for plain names. */
  lemma WireNameRoundTrip(s: string)
    requires s != "" && Ascii(s)
    ensures Camel(Snake(s)) == s <==> Plain(s)
  {
    hide Camel, Snake, Back, WordStart, LowerOf, UpperOf, IsUpper, Ascii;
    if '_' in s {
      UnderscoreIsLost(s);
    } else {
      var back := Camel(Snake(s));
      BackAgain(s);
      FirstStaysItself(s);
      forall i | 0 < i < |s| ensures back[i] == s[i] <==> (IsUpper(s[i]) ==> WordStart(s, i)) {
        StaysItself(s, i);
      }
    }
  }

  /** Hence distinct plain names never share a field name. */
  lemma SnakeIsInjective(a: string, b: string)
    requires a != "" && b != "" && Ascii(a) && Ascii(b) && Plain(a) && Plain(b)
    ensures Snake(a) == Snake(b) ==> a == b
  {
    WireNameRoundTrip(a);
    WireNameRoundTrip(b);
  }

  const KEYWORDS: set<string> := {
    "type", "self", "Self", "super", "move", "ref", "fn", "mod", "use", "pub", "let", "mut", "const", "static", "if", "else",
    "for", "while", "loop", "match", "return", "break", "continue", "as", "in", "impl", "trait", "struct", "enum", "where",
    "async", "await", "dyn", "box", "yield", "override", "crate", "extern"}

  /** A field identifier; `raw` is the `r#` form, which serde does not see. */
  datatype Ident = Ident(raw: bool, name: string)

  function FieldIdent(propertyName: string): Ident {
    Ident(Snake(propertyName) in KEYWORDS, Snake(propertyName))
  }

  /** Escaping keywords costs nothing on the wire and merges no fields. */
  lemma FieldsKeepWireNames(a: string, b: string)
    requires a != "" && b != "" && Ascii(a) && Ascii(b) && Plain(a) && Plain(b)
    ensures Camel(FieldIdent(a).name) == a
    ensures FieldIdent(a) == FieldIdent(b) ==> a == b
  {
    WireNameRoundTrip(a);
    SnakeIsInjective(a, b);
  }

  // ---------------------------------------------------------------- PascalCase

  predicate Separator(c: char) {
    c == '_' || c == '-' || c == '.'
  }

  function PascalFrom(s: string, capitalize: bool): string {
    if s == "" then ""
    else if Separator(s[0]) then PascalFrom(s[1..], true)
    else [if capitalize then UpperOf(s[0]) else s[0]] + PascalFrom(s[1..], false)
  }

  function Pascal(s: string): string {
    PascalFrom(s, true)
  }

  method ToPascalCase(s: string) returns (r: string)
    ensures r == Pascal(s)
  {
    r := "";
    var capitalize := true;
    assert s[0..] == s;
    for i := 0 to |s|
      invariant r + PascalFrom(s[i..], capitalize) == Pascal(s)
    {
      ghost var before := r;
      assert s[i..][0] == s[i] && s[i..][1..] == s[i+1..];
      if Separator(s[i]) {
        capitalize := true;
      } else if capitalize {
        r := r + [UpperOf(s[i])];
        capitalize := false;
        assert before + ([UpperOf(s[i])] + PascalFrom(s[i+1..], false)) == r + PascalFrom(s[i+1..], false);
      } else {
        r := r + [s[i]];
        assert before + ([s[i]] + PascalFrom(s[i+1..], false)) == r + PascalFrom(s[i+1..], false);
      }
    }
    assert s[|s|..] == "";
  }

  lemma {:induction false} PascalKeepsLength(s: string, capitalize: bool)
    ensures |PascalFrom(s, capitalize)| <= |s|
    ensures |PascalFrom(s, capitalize)| == |s| <==> forall c :: c in s ==> !Separator(c)
    ensures (forall c :: c in s ==> !Separator(c)) && !capitalize ==> PascalFrom(s, capitalize) == s
  {
    if s != "" {
      PascalKeepsLength(s[1..], Separator(s[0]));
      PascalKeepsLength(s[1..], false);
      assert s == [s[0]] + s[1..];
    }
  }

  /** The names that PascalCase leaves alone. */
  lemma PascalFixedPoints(s: string)
    ensures Pascal(s) == s <==> (forall c :: c in s ==> !Separator(c)) && (s != "" ==> !IsLower(s[0]))
  {
    PascalKeepsLength(s, true);
    if s != "" {
      PascalKeepsLength(s[1..], false);
      assert s == [s[0]] + s[1..];
    }
  }

  // ---------------------------------------------------------------- enum variants

  /** The variant name of an enum value. */
  function VariantName(value: string): string {
    var name := if Pascal(value) == "Self" then "SelfValue" else Pascal(value);
    if name != "" && IsDigit(name[0]) then "V" + name else name
  }

  datatype Variant = Variant(wire: string, name: string)

  function VariantNames(vs: seq<Variant>): (r: seq<string>)
    ensures |r| == |vs| && forall i :: 0 <= i < |vs| ==> r[i] == vs[i].name
  {
    seq(|vs|, i requires 0 <= i < |vs| => vs[i].name)
  }

  /** The emitted variants: each value whose name is new. */
  function Variants(values: seq<string>): seq<Variant> {
    if values == [] then []
    else
      var prior, last := Variants(values[..|values|-1]), values[|values|-1];
      if VariantName(last) in VariantNames(prior) then prior else prior + [Variant(last, VariantName(last))]
  }

  method EmitVariants(values: seq<string>) returns (variants: seq<Variant>)
    ensures variants == Variants(values)
  {
    var seen: set<string> := {};
    variants := [];
    assert values[..0] == [];
    for i := 0 to |values|
      invariant variants == Variants(values[..i]) && forall n :: n in seen <==> n in VariantNames(variants)
    {
      assert values[..i+1][..i] == values[..i];
      var variant := Pascal(values[i]);
      if variant == "Self" {
        variant := "SelfValue";
      }
      if variant != "" && IsDigit(variant[0]) {
        variant := "V" + variant;
      }
      if variant !in seen {
        seen := seen + {variant};
        assert VariantNames(variants + [Variant(values[i], variant)]) == VariantNames(variants) + [variant];
        variants := variants + [Variant(values[i], variant)];
      }
    }
    assert values[..|values|] == values;
  }

  /** `k` is the first value that produces its variant name. */
  predicate First(values: seq<string>, k: nat)
    requires k < |values|
  {
    forall j :: 0 <= j < k ==> VariantName(values[j]) != VariantName(values[k])
  }

  lemma {:induction false} VariantsCarryTheirName(values: seq<string>)
    ensures forall v :: v in Variants(values) ==> v.wire in values && v.name == VariantName(v.wire)
  {
    hide VariantName, VariantNames;
    if values != [] {
      VariantsCarryTheirName(values[..|values|-1]);
      assert values == values[..|values|-1] + [values[|values|-1]];
    }
  }

  lemma NamesAppend(vs: seq<Variant>, v: Variant)
    ensures VariantNames(vs + [v]) == VariantNames(vs) + [v.name]
  {}

  lemma {:induction false} EveryNameIsEmitted(values: seq<string>)
    ensures forall w :: w in values ==> VariantName(w) in VariantNames(Variants(values))
  {
    hide VariantName, VariantNames;
    if values != [] {
      var prior, last := values[..|values|-1], values[|values|-1];
      EveryNameIsEmitted(prior);
      NamesAppend(Variants(prior), Variant(last, VariantName(last)));
      assert values == prior + [last];
    }
  }

  predicate AllDifferent(names: seq<string>) {
    forall i, j :: 0 <= i < j < |names| ==> names[i] != names[j]
  }

  lemma {:induction false} NamesAreDistinct(values: seq<string>)
    ensures AllDifferent(VariantNames(Variants(values)))
  {
    hide VariantName;
    if values == [] {
      assert VariantNames(Variants(values)) == [];
    } else {
      var prior, added := values[..|values|-1], VariantName(values[|values|-1]);
      NamesAreDistinct(prior);
      var names, now := VariantNames(Variants(prior)), VariantNames(Variants(values));
      if added in names {
        assert now == names;
      } else {
        assert now == names + [added];
        assert forall i :: 0 <= i < |names| ==> names[i] in names;
      }
    }
  }

  /** Every emitted variant carries the name of its own wire value, names and wire
      values are distinct, and every listed value's name is emitted. */
  lemma VariantsAreDistinct(values: seq<string>)
    ensures var vs := Variants(values);
            && (forall i, j :: 0 <= i < j < |vs| ==> vs[i].name != vs[j].name && vs[i].wire != vs[j].wire)
            && (forall v :: v in vs ==> v.wire in values && v.name == VariantName(v.wire))
            && (forall w :: w in values ==> VariantName(w) in VariantNames(vs))
  {
    hide VariantName, Variants;
    VariantsCarryTheirName(values);
    EveryNameIsEmitted(values);
    NamesAreDistinct(values);
    var vs := Variants(values);
    forall i, j | 0 <= i < j < |vs| ensures vs[i].name != vs[j].name && vs[i].wire != vs[j].wire {
      assert VariantNames(vs)[i] == vs[i].name && VariantNames(vs)[j] == vs[j].name;
      assert vs[i] in vs && vs[j] in vs;
    }
  }

  lemma LastIsFirst(values: seq<string>)
    requires values != []
    ensures First(values, |values|-1) <==> VariantName(values[|values|-1]) !in VariantNames(Variants(values[..|values|-1]))
  {
    hide VariantName, Variants;
    var prior, last := values[..|values|-1], values[|values|-1];
    VariantsAreDistinct(prior);
    var before := Variants(prior);
    if VariantName(last) in VariantNames(before) {
      var i :| 0 <= i < |before| && VariantNames(before)[i] == VariantName(last);
      assert before[i] in before;
      var k :| 0 <= k < |prior| && prior[k] == before[i].wire;
      assert values[k] == prior[k];
    } else {
      forall k | 0 <= k < |prior| ensures VariantName(values[k]) != VariantName(last) {
        assert prior[k] in prior && prior[k] == values[k];
      }
    }
  }

  /** The enum is a faithful image of its value list: exactly the first value of each
      name is emitted. */
  lemma {:induction false} VariantsAreFirsts(values: seq<string>, v: Variant)
    ensures v in Variants(values) <==> exists k :: EmittedFrom(values, k, v)
  {
    hide VariantName, First, EmittedFrom;
    if values == [] {
      NothingEmitted(v);
    } else {
      var prior, last := values[..|values|-1], values[|values|-1];
      VariantsAreFirsts(prior, v);
      LastIsFirst(values);
      forall k ensures EmittedFrom(values, k, v) <==> EmittedFrom(prior, k, v) || (k == |prior| && EmittedFrom(values, k, v)) {
        EmittedInPrefix(values, k, v);
      }
      EmittedLast(values, v);
    }
  }

  lemma NothingEmitted(v: Variant)
    ensures Variants([]) == [] && forall k :: !EmittedFrom([], k, v)
  {}

  lemma EmittedInPrefix(values: seq<string>, k: int, v: Variant)
    requires values != []
    ensures EmittedFrom(values, k, v) <==> EmittedFrom(values[..|values|-1], k, v) || (k == |values| - 1 && EmittedFrom(values, k, v))
  {
    hide VariantName, First;
    if 0 <= k < |values| - 1 {
      FirstInPrefix(values, k);
    }
  }

  lemma EmittedLast(values: seq<string>, v: Variant)
    requires values != []
    ensures EmittedFrom(values, |values| - 1, v) <==>
              First(values, |values| - 1) && v == Variant(values[|values|-1], VariantName(values[|values|-1]))
  {
    hide VariantName, First;
  }

  predicate EmittedFrom(values: seq<string>, k: int, v: Variant) {
    0 <= k < |values| && First(values, k) && v == Variant(values[k], VariantName(values[k]))
  }

  lemma FirstInPrefix(values: seq<string>, k: nat)
    requires k < |values| - 1
    ensures First(values[..|values|-1], k) <==> First(values, k)
  {
    var prior := values[..|values|-1];
    assert forall j :: 0 <= j <= k ==> prior[j] == values[j];
  }

  /** No variant is `Self` and none starts with a digit. */
  lemma VariantNamesAreLegal(value: string)
    ensures VariantName(value) != "Self"
    ensures VariantName(value) != "" ==> !IsDigit(VariantName(value)[0])
  {
    hide Pascal;
    assert "SelfValue"[0] == 'S' && "Self"[0] == 'S' && |"SelfValue"| == 9 && |"Self"| == 4;
    var name := if Pascal(value) == "Self" then "SelfValue" else Pascal(value);
    if name != "" && IsDigit(name[0]) {
      assert ("V" + name)[0] == 'V';
    }
  }

  /** serde decoding: the variant renamed to the wire string. */
  function Decode(vs: seq<Variant>, wire: string): (r: Option<string>)
    ensures r.None? <==> forall v :: v in vs ==> v.wire != wire
    ensures r.Some? ==> Variant(wire, r.value) in vs
  {
    if vs == [] then None
    else if vs[0].wire == wire then Some(vs[0].name)
    else Decode(vs[1..], wire)
  }

  /** Decoding inverts encoding on every variant, and a listed value decodes exactly
      when it is the first with its name: later ones are lost. */
  lemma DecodeInvertsEncode(values: seq<string>)
    ensures forall v :: v in Variants(values) ==> Decode(Variants(values), v.wire) == Some(v.name)
    ensures forall w :: Decode(Variants(values), w).Some? <==> exists k :: 0 <= k < |values| && values[k] == w && First(values, k)
  {
    hide VariantName, First, Variants;
    VariantsAreDistinct(values);
    var vs := Variants(values);
    forall v | v in vs ensures Decode(vs, v.wire) == Some(v.name) {
      var name := Decode(vs, v.wire).value;
      var i :| 0 <= i < |vs| && vs[i] == v;
      var j :| 0 <= j < |vs| && vs[j] == Variant(v.wire, name);
    }
    forall w ensures Decode(vs, w).Some? <==> exists k :: 0 <= k < |values| && values[k] == w && First(values, k) {
      if Decode(vs, w).Some? {
        var v := Variant(w, Decode(vs, w).value);
        VariantsAreFirsts(values, v);
        var k :| EmittedFrom(values, k, v);
      }
      if k :| 0 <= k < |values| && values[k] == w && First(values, k) {
        var v := Variant(w, VariantName(w));
        VariantsAreFirsts(values, v);
        assert EmittedFrom(values, k, v);
      }
    }
  }
}
