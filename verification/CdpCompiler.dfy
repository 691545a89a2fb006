/** The protocol-to-Rust compiler (cli/build.rs:58-289, 335-498): every generated type
    path resolves. Declarations are kept as a tree; only field types also appear as
    the text the generator edits. */
module CdpCompiler {
  import opened JsValues
  import opened CdpNames

  // ---------------------------------------------------------------- the schema

  datatype Item = Item(kind: Option<string>, ref: Option<string>)

  datatype Property = Property(name: string, kind: Option<string>, ref: Option<string>, optional: bool, items: Option<Item>)

  datatype TypeDef = TypeDef(id: string, kind: string, properties: seq<Property>, enumValues: seq<string>)

  datatype Command = Command(name: string, parameters: seq<Property>, returns_: seq<Property>)

  datatype Event = Event(name: string, parameters: seq<Property>)

  datatype Domain = Domain(domain: string, types: seq<TypeDef>, commands: seq<Command>, events: seq<Event>)

  type TypeTable = map<string, set<string>>

  // ---------------------------------------------------------------- generated types

  datatype RustType =
    | Str | I64 | F64 | Bool | JsonValue
    | Local(name: string)
    | Foreign(mod: string, name: string)
    | Vec(elem: RustType)
    | Opt(inner: RustType)
    | Boxed(boxed: RustType)

  function Render(t: RustType): string {
    match t
    case Str => "String"
    case I64 => "i64"
    case F64 => "f64"
    case Bool => "bool"
    case JsonValue => "serde_json::Value"
    case Local(name) => name
    case Foreign(mod, name) => "super::" + mod + "::" + name
    case Vec(elem) => "Vec<" + Render(elem) + ">"
    case Opt(inner) => "Option<" + Render(inner) + ">"
    case Boxed(inner) => "Box<" + Render(inner) + ">"
  }

  function ModuleName(domain: string): string {
    "cdp_" + Snake(domain)
  }

  // ---------------------------------------------------------------- references

  function DotAt(s: string): (i: nat)
    ensures i <= |s| && (i < |s| ==> s[i] == '.') && forall k :: 0 <= k < i ==> s[k] != '.'
  {
    if s == "" || s[0] == '.' then 0 else 1 + DotAt(s[1..])
  }

  /** The two halves of a reference with exactly one dot. */
  function Halves(r: string): (h: Option<(string, string)>)
    ensures h.Some? ==> r == h.value.0 + "." + h.value.1 && '.' !in h.value.0 && '.' !in h.value.1
  {
    var i := DotAt(r);
    if i < |r| && '.' !in r[i+1..] then
      assert '.' !in r[..i];
      Some((r[..i], r[i+1..]))
    else None
  }

  /** resolve_ref. */
  function ResolveRef(r: string, current: string, table: TypeTable): RustType {
    match Halves(r)
    case None => Local(Pascal(r))
    case Some((domain, name)) =>
      if domain == current then Local(Pascal(name))
      else if domain in table && name in table[domain] then Foreign(ModuleName(domain), Pascal(name))
      else JsonValue
  }

  function Scalar(kind: string): Option<RustType> {
    match kind
    case "string" => Some(Str)
    case "integer" => Some(I64)
    case "number" => Some(F64)
    case "boolean" => Some(Bool)
    case _ => None
  }

  function ItemType(item: Item, current: string, table: TypeTable): RustType {
    if item.ref.Some? then ResolveRef(item.ref.value, current, table)
    else
      var scalar := Scalar(if item.kind.Some? then item.kind.value else "any");
      if scalar.Some? then scalar.value else JsonValue
  }

  /** map_type_in_domain. */
  function MapType(p: Property, current: string, table: TypeTable): RustType {
    var base :=
      if p.ref.Some? then ResolveRef(p.ref.value, current, table)
      else if p.kind.None? then JsonValue
      else if Scalar(p.kind.value).Some? then Scalar(p.kind.value).value
      else if p.kind.value == "array" then Vec(if p.items.Some? then ItemType(p.items.value, current, table) else JsonValue)
      else JsonValue;
    if p.optional then Opt(base) else base
  }

  // ---------------------------------------------------------------- values

  /** A JSON value, as far as the schema and the generated types tell values apart. */
  datatype Json = JNull | JBool | JInt(n: int) | JFraction | JText | JArray(elements: seq<Json>) | JObject

  predicate InI64(n: int) {
    -0x8000_0000_0000_0000 <= n < 0x8000_0000_0000_0000
  }

  /** What deserialisation into the generated type accepts. Named types are left open. */
  predicate Admits(t: RustType, v: Json)
    decreases t
  {
    match t
    case Str => v.JText?
    case I64 => v.JInt? && InI64(v.n)
    case F64 => v.JInt? || v.JFraction?
    case Bool => v.JBool?
    case JsonValue => true
    case Vec(elem) => v.JArray? && forall e :: e in v.elements ==> Admits(elem, e)
    case Opt(inner) => v.JNull? || Admits(inner, v)
    case Boxed(inner) => Admits(inner, v)
    case _ => true
  }

  /** What the protocol means by a kind. */
  predicate OfKind(kind: string, v: Json) {
    match kind
    case "string" => v.JText?
    case "integer" => v.JInt?
    case "number" => v.JInt? || v.JFraction?
    case "boolean" => v.JBool?
    case "object" => v.JObject?
    case "array" => v.JArray?
    case _ => true
  }

  /** The value is one the schema allows for the property when it is present. */
  predicate Conforms(p: Property, v: Json) {
    && (p.kind.Some? ==> OfKind(p.kind.value, v))
    && (p.kind == Some("array") && p.items.Some? && p.items.value.kind.Some? && v.JArray? ==>
          forall e :: e in v.elements ==> OfKind(p.items.value.kind.value, e))
  }

  /** The kinds that the generated types render exactly. */
  predicate Exact(kind: string) {
    Scalar(kind).Some?
  }

  predicate FitsKind(kind: Option<string>, v: Json) {
    kind == Some("integer") && v.JInt? ==> InI64(v.n)
  }

  /** Whatever the property calls an integer has at most 64 bits. */
  predicate Fits(p: Property, v: Json) {
    && FitsKind(p.kind, v)
    && (p.kind == Some("array") && p.items.Some? && v.JArray? ==> forall e :: e in v.elements ==> FitsKind(p.items.value.kind, e))
  }

  /** A value the schema allows can be received exactly if its integers have at most 64
      bits; and a value of a required property of an exact kind, or of an array of one,
      can only be received if it is allowed. */
  lemma TypesAdmitTheSchema(p: Property, current: string, table: TypeTable, v: Json)
    requires p.ref.None? && (p.items.Some? ==> p.items.value.ref.None?)
    ensures Conforms(p, v) ==> (Admits(MapType(p, current, table), v) <==> Fits(p, v))
    ensures p.optional ==> Admits(MapType(p, current, table), JNull)
    ensures !p.optional && p.kind.Some? && Exact(p.kind.value) ==> (Admits(MapType(p, current, table), v) <==> Conforms(p, v) && Fits(p, v))
    ensures !p.optional && p.kind == Some("array") && p.items.Some? && p.items.value.kind.Some? && Exact(p.items.value.kind.value) ==>
              (Admits(MapType(p, current, table), v) <==> Conforms(p, v) && Fits(p, v))
  {
    hide OfKind, Scalar, InI64, ItemType;
    if p.kind.Some? {
      ScalarsAdmit(p.kind.value, v);
      if p.kind.value == "array" {
        ArraysAdmit(p, current, table, v);
      }
    }
  }

  lemma ScalarsAdmit(kind: string, v: Json)
    ensures Scalar(kind).Some? ==> (Admits(Scalar(kind).value, v) <==> OfKind(kind, v) && FitsKind(Some(kind), v))
    ensures Scalar(kind).None? ==> FitsKind(Some(kind), v)
    ensures Scalar("array").None? && (OfKind("array", v) <==> v.JArray?)
  {}

  lemma ArraysAdmit(p: Property, current: string, table: TypeTable, v: Json)
    requires p.kind == Some("array") && (p.items.Some? ==> p.items.value.ref.None?)
    ensures var t := Vec(if p.items.Some? then ItemType(p.items.value, current, table) else JsonValue);
            && (Conforms(p, v) ==> (Admits(t, v) <==> Fits(p, v)))
            && (p.items.Some? && p.items.value.kind.Some? && Exact(p.items.value.kind.value) ==> (Admits(t, v) <==> Conforms(p, v) && Fits(p, v)))
  {
    hide OfKind, Scalar, FitsKind, ItemType, Exact;
    ScalarsAdmit("array", v);
    if p.items.Some? && v.JArray? {
      forall e | e in v.elements
        ensures (p.items.value.kind.Some? ==> OfKind(p.items.value.kind.value, e)) ==>
                  (Admits(ItemType(p.items.value, current, table), e) <==> FitsKind(p.items.value.kind, e))
        ensures p.items.value.kind.Some? && Exact(p.items.value.kind.value) ==>
                  (Admits(ItemType(p.items.value, current, table), e) <==> OfKind(p.items.value.kind.value, e) && FitsKind(p.items.value.kind, e))
      {
        ItemsAdmit(p.items.value, current, table, e);
      }
    }
  }

  lemma ItemsAdmit(item: Item, current: string, table: TypeTable, e: Json)
    requires item.ref.None?
    ensures (item.kind.Some? ==> OfKind(item.kind.value, e)) ==> (Admits(ItemType(item, current, table), e) <==> FitsKind(item.kind, e))
    ensures item.kind.Some? && Exact(item.kind.value) ==>
              (Admits(ItemType(item, current, table), e) <==> OfKind(item.kind.value, e) && FitsKind(item.kind, e))
  {
    hide OfKind;
    ScalarsAdmit(if item.kind.Some? then item.kind.value else "any", e);
  }

  /** The protocol allows an integer that no generated type can hold. */
  lemma WideIntegerIsLost(p: Property, current: string, table: TypeTable)
    requires p.ref.None? && p.kind == Some("integer")
    ensures Conforms(p, JInt(0x8000_0000_0000_0000)) && !Admits(MapType(p, current, table), JInt(0x8000_0000_0000_0000))
  {
    if p.items.Some? && p.items.value.ref.Some? {
      var bare := p.(items := None);
      TypesAdmitTheSchema(bare, current, table, JInt(0x8000_0000_0000_0000));
    } else {
      TypesAdmitTheSchema(p, current, table, JInt(0x8000_0000_0000_0000));
    }
  }

  // ---------------------------------------------------------------- boxes

  const OPTION := "Option<"

  predicate StartsWith(s: string, prefix: string) {
    |prefix| <= |s| && s[..|prefix|] == prefix
  }

  /** The edit the generator makes on the rendered text of a recursive field. (The
      bare text `Option<`, on which the generator would abort, is left to the second
      case.) */
  function BoxText(text: string): string {
    if StartsWith(text, OPTION) && |text| > |OPTION| then OPTION + "Box<" + text[|OPTION|..|text|-1] + ">>"
    else "Box<" + text + ">"
  }

  /** What that edit is meant to do to the type. */
  function BoxTree(t: RustType): RustType {
    if t.Opt? then Opt(Boxed(t.inner)) else Boxed(t)
  }

  lemma BoxInsideOption(body: string)
    ensures BoxText(OPTION + body + ">") == OPTION + ("Box<" + body + ">") + ">"
  {
    var text := OPTION + body + ">";
    assert text[..|OPTION|] == OPTION && text[|OPTION|..|text|-1] == body;
    assert "Box<" + body + ">>" == ("Box<" + body + ">") + ">" by {
      assert ">>" == ">" + ">";
    }
  }

  lemma BoxOfOption(inner: RustType)
    ensures BoxText(Render(Opt(inner))) == Render(Opt(Boxed(inner)))
  {
    hide BoxText;
    BoxInsideOption(Render(inner));
    assert Render(Boxed(inner)) == "Box<" + Render(inner) + ">";
  }

  lemma BoxOfText(text: string)
    ensures BoxText(text) == "Box<" + text + ">" <==> !(StartsWith(text, OPTION) && |text| > |OPTION|)
  {
    if StartsWith(text, OPTION) && |text| > |OPTION| {
      assert BoxText(text)[0] == 'O';
      assert ("Box<" + text + ">")[0] == 'B';
    }
  }

  /** The string surgery is the tree operation exactly when a non-optional type does
      not happen to be spelled like an optional one. */
  lemma BoxSurgeryIsStructural(t: RustType)
    ensures BoxText(Render(t)) == Render(BoxTree(t)) <==> t.Opt? || !(StartsWith(Render(t), OPTION) && |Render(t)| > |OPTION|)
  {
    hide BoxText, StartsWith;
    if t.Opt? {
      BoxOfOption(t.inner);
    } else {
      BoxOfText(Render(t));
      assert Render(Boxed(t)) == "Box<" + Render(t) + ">";
    }
  }

  const MISREAD := "Option<X>"

  lemma MisreadText()
    ensures BoxText(MISREAD) == "Option<Box<X>>" && "Box<" + MISREAD + ">" == "Box<Option<X>>"
  {
    assert MISREAD[..|OPTION|] == OPTION && MISREAD[|OPTION|..|MISREAD|-1] == "X";
    assert OPTION + "Box<" + "X" + ">>" == "Option<Box<X>>";
  }

  lemma NoDotNoHalves(r: string)
    requires '.' !in r
    ensures Halves(r).None?
  {
    assert DotAt(r) == |r|;
  }

  lemma MisreadIsLocal(current: string, table: TypeTable)
    ensures ResolveRef(MISREAD, current, table) == Local(MISREAD)
  {
    hide Pascal, Halves;
    assert forall c :: c in MISREAD ==> !Separator(c);
    PascalFixedPoints(MISREAD);
    NoDotNoHalves(MISREAD);
  }

  /** A required reference that is misread: the box lands inside its name. */
  lemma MisreadReference(current: string, table: TypeTable)
    ensures var t := MapType(Property("p", None, Some(MISREAD), false, None), current, table);
            t == Local(MISREAD) && Render(BoxTree(t)) == "Box<Option<X>>" && BoxText(Render(t)) == "Option<Box<X>>"
  {
    hide ResolveRef, BoxText;
    MisreadIsLocal(current, table);
    MisreadText();
    assert Render(Boxed(Local(MISREAD))) == "Box<" + Render(Local(MISREAD)) + ">";
  }

  /** No reference free of angle brackets is spelled like an option. */
  lemma MappedTypesAreNotMisread(p: Property, current: string, table: TypeTable)
    requires p.ref.Some? ==> '<' !in p.ref.value
    ensures var t := MapType(p, current, table); t.Opt? || !StartsWith(Render(t), OPTION)
    ensures BoxText(Render(MapType(p, current, table))) == Render(BoxTree(MapType(p, current, table)))
  {
    var t := MapType(p, current, table);
    OptionSpelling(Render(t));
    if t.Local? {
      LocalHasNoBracket(p.ref.value, current, table);
    }
    BoxSurgeryIsStructural(t);
  }

  lemma OptionSpelling(text: string)
    ensures '<' !in text || (text != "" && text[0] != 'O') ==> !StartsWith(text, OPTION)
  {
    if StartsWith(text, OPTION) {
      assert text[..|OPTION|][0] == text[0] && text[..|OPTION|][6] == text[6];
    }
  }

  lemma LocalHasNoBracket(r: string, current: string, table: TypeTable)
    requires '<' !in r && ResolveRef(r, current, table).Local?
    ensures '<' !in ResolveRef(r, current, table).name
  {
    match Halves(r)
    case None =>
      PascalAddsNoBracket(r, true);
    case Some((domain, name)) =>
      assert forall c :: c in name ==> c in r;
      PascalAddsNoBracket(name, true);
  }

  lemma {:induction false} PascalAddsNoBracket(s: string, capitalize: bool)
    requires '<' !in s
    ensures '<' !in PascalFrom(s, capitalize)
  {
    if s != "" {
      PascalAddsNoBracket(s[1..], Separator(s[0]));
    }
  }

  // ---------------------------------------------------------------- declarations

  datatype FieldDecl = FieldDecl(skipNone: bool, ident: Ident, ty: string)

  datatype Decl =
    | EnumDecl(id: string, variants: seq<Variant>)
    | StructDecl(id: string, fields: seq<FieldDecl>)
    | AliasDecl(id: string, target: RustType)

  datatype Mod = Mod(name: string, decls: seq<Decl>)

  /** (domain, type, property) triples whose field type is boxed. */
  const RECURSIVE_FIELDS: set<(string, string, string)> := {
    ("DOM", "Node", "contentDocument"), ("DOM", "Node", "templateContent"), ("DOM", "Node", "importedDocument"),
    ("Accessibility", "AXNode", "sources"), ("Runtime", "StackTrace", "parent")}

  predicate IsRecursive(domain: string, owner: Option<string>, property: string) {
    owner.Some? && (domain, owner.value, property) in RECURSIVE_FIELDS
  }

  /** One struct field; `owner` is the schema type it belongs to, if any. */
  function FieldOf(p: Property, owner: Option<string>, current: string, table: TypeTable): FieldDecl {
    var text := Render(MapType(p, current, table));
    FieldDecl(p.optional, FieldIdent(p.name), if IsRecursive(current, owner, p.name) then BoxText(text) else text)
  }

  /** The type that the field's text is meant to spell. */
  function FieldTree(p: Property, owner: Option<string>, current: string, table: TypeTable): RustType {
    var t := MapType(p, current, table);
    if IsRecursive(current, owner, p.name) then BoxTree(t) else t
  }

  function FieldsOf(ps: seq<Property>, owner: Option<string>, current: string, table: TypeTable): (r: seq<FieldDecl>)
    ensures |r| == |ps| && forall i :: 0 <= i < |ps| ==> r[i] == FieldOf(ps[i], owner, current, table)
  {
    seq(|ps|, i requires 0 <= i < |ps| => FieldOf(ps[i], owner, current, table))
  }

  /** The declaration of a schema type, if its kind has one. */
  function TypeDecl(td: TypeDef, current: string, table: TypeTable): seq<Decl> {
    if td.enumValues != [] then [EnumDecl(td.id, Variants(td.enumValues))]
    else if td.kind == "object" && td.properties != [] then [StructDecl(td.id, FieldsOf(td.properties, Some(td.id), current, table))]
    else if td.kind == "object" then [AliasDecl(td.id, JsonValue)]
    else if td.kind == "array" then [AliasDecl(td.id, Vec(JsonValue))]
    else if td.kind == "string" then [AliasDecl(td.id, Str)]
    else if td.kind == "integer" then [AliasDecl(td.id, I64)]
    else if td.kind == "number" then [AliasDecl(td.id, F64)]
    else []
  }

  function PayloadDecl(name: string, suffix: string, ps: seq<Property>, current: string, table: TypeTable): seq<Decl> {
    if ps == [] then [] else [StructDecl(Pascal(name) + suffix, FieldsOf(ps, None, current, table))]
  }

  function TypeDecls(tds: seq<TypeDef>, current: string, table: TypeTable): seq<Decl> {
    if tds == [] then [] else TypeDecls(tds[..|tds|-1], current, table) + TypeDecl(tds[|tds|-1], current, table)
  }

  function CommandDecl(c: Command, current: string, table: TypeTable): seq<Decl> {
    PayloadDecl(c.name, "Params", c.parameters, current, table) + PayloadDecl(c.name, "Result", c.returns_, current, table)
  }

  function CommandDecls(cs: seq<Command>, current: string, table: TypeTable): seq<Decl> {
    if cs == [] then [] else CommandDecls(cs[..|cs|-1], current, table) + CommandDecl(cs[|cs|-1], current, table)
  }

  function EventDecls(es: seq<Event>, current: string, table: TypeTable): seq<Decl> {
    if es == [] then []
    else EventDecls(es[..|es|-1], current, table) + PayloadDecl(es[|es|-1].name, "Event", es[|es|-1].parameters, current, table)
  }

  function GeneratedModule(d: Domain, table: TypeTable): Mod {
    Mod(ModuleName(d.domain),
        TypeDecls(d.types, d.domain, table) + CommandDecls(d.commands, d.domain, table) + EventDecls(d.events, d.domain, table))
  }

  function Ids(tds: seq<TypeDef>): set<string> {
    set td | td in tds :: td.id
  }

  /** The table of known type ids; a later domain of the same name replaces an earlier one. */
  function TableOf(domains: seq<Domain>): TypeTable {
    if domains == [] then map[]
    else TableOf(domains[..|domains|-1])[domains[|domains|-1].domain := Ids(domains[|domains|-1].types)]
  }

  function Program(domains: seq<Domain>): (r: seq<Mod>)
    ensures |r| == |domains| && forall i :: 0 <= i < |domains| ==> r[i] == GeneratedModule(domains[i], TableOf(domains))
  {
    seq(|domains|, i requires 0 <= i < |domains| => GeneratedModule(domains[i], TableOf(domains)))
  }

  // ---------------------------------------------------------------- the generator's loops

  /** The field loop. */
  method EmitFields(ps: seq<Property>, owner: Option<string>, current: string, table: TypeTable) returns (fields: seq<FieldDecl>)
    ensures fields == FieldsOf(ps, owner, current, table)
  {
    hide MapType, Render, Snake, BoxText;
    fields := [];
    for i := 0 to |ps|
      invariant |fields| == i && forall k :: 0 <= k < i ==> fields[k] == FieldOf(ps[k], owner, current, table)
    {
      var p := ps[i];
      var name := Snake(p.name);
      var ident := if name in KEYWORDS then Ident(true, name) else Ident(false, name);
      var text := Render(MapType(p, current, table));
      if owner.Some? && (current, owner.value, p.name) in RECURSIVE_FIELDS {
        text := BoxText(text);
      }
      fields := fields + [FieldDecl(p.optional, ident, text)];
    }
  }

  /** The type loop of generate_domain. */
  method EmitTypes(d: Domain, table: TypeTable) returns (decls: seq<Decl>)
    ensures decls == TypeDecls(d.types, d.domain, table)
  {
    hide FieldsOf, Variants;
    decls := [];
    for i := 0 to |d.types|
      invariant decls == TypeDecls(d.types[..i], d.domain, table)
    {
      assert d.types[..i+1][..i] == d.types[..i];
      var td := d.types[i];
      if td.enumValues != [] {
        var variants := EmitVariants(td.enumValues);
        decls := decls + [EnumDecl(td.id, variants)];
      } else if td.kind == "object" && td.properties != [] {
        var fields := EmitFields(td.properties, Some(td.id), d.domain, table);
        decls := decls + [StructDecl(td.id, fields)];
      } else if td.kind == "object" && td.properties == [] {
        decls := decls + [AliasDecl(td.id, JsonValue)];
      } else if td.kind == "array" {
        decls := decls + [AliasDecl(td.id, Vec(JsonValue))];
      } else if td.kind == "string" && td.enumValues == [] {
        decls := decls + [AliasDecl(td.id, Str)];
      } else if td.kind == "integer" {
        decls := decls + [AliasDecl(td.id, I64)];
      } else if td.kind == "number" {
        decls := decls + [AliasDecl(td.id, F64)];
      }
    }
    assert d.types[..|d.types|] == d.types;
  }

  lemma NoCommandDecls(current: string, table: TypeTable)
    ensures CommandDecls([], current, table) == []
  {}

  lemma CommandDeclsStep(cs: seq<Command>, i: nat, current: string, table: TypeTable)
    requires i < |cs|
    ensures CommandDecls(cs[..i+1], current, table) == CommandDecls(cs[..i], current, table) + CommandDecl(cs[i], current, table)
  {
    hide CommandDecl;
    assert cs[..i+1][..i] == cs[..i];
  }

  /** The command loop. */
  method EmitCommands(d: Domain, table: TypeTable) returns (decls: seq<Decl>)
    ensures decls == CommandDecls(d.commands, d.domain, table)
  {
    hide FieldsOf, Pascal, CommandDecls;
    decls := [];
    NoCommandDecls(d.domain, table);
    for i := 0 to |d.commands|
      invariant decls == CommandDecls(d.commands[..i], d.domain, table)
    {
      CommandDeclsStep(d.commands, i, d.domain, table);
      var c := d.commands[i];
      ghost var before := decls;
      if c.parameters != [] {
        var fields := EmitFields(c.parameters, None, d.domain, table);
        decls := decls + [StructDecl(Pascal(c.name) + "Params", fields)];
      }
      if c.returns_ != [] {
        var fields := EmitFields(c.returns_, None, d.domain, table);
        decls := decls + [StructDecl(Pascal(c.name) + "Result", fields)];
      }
      assert decls == before + CommandDecl(c, d.domain, table);
    }
    assert d.commands[..|d.commands|] == d.commands;
  }

  /** The event loop. */
  method EmitEvents(d: Domain, table: TypeTable) returns (decls: seq<Decl>)
    ensures decls == EventDecls(d.events, d.domain, table)
  {
    hide FieldsOf, Pascal;
    decls := [];
    for i := 0 to |d.events|
      invariant decls == EventDecls(d.events[..i], d.domain, table)
    {
      assert d.events[..i+1][..i] == d.events[..i];
      var e := d.events[i];
      if e.parameters != [] {
        var fields := EmitFields(e.parameters, None, d.domain, table);
        decls := decls + [StructDecl(Pascal(e.name) + "Event", fields)];
      }
    }
    assert d.events[..|d.events|] == d.events;
  }

  /** generate_domain: types, then command payloads, then event payloads. */
  method GenerateDomain(d: Domain, table: TypeTable) returns (m: Mod)
    ensures m == GeneratedModule(d, table)
  {
    var types := EmitTypes(d, table);
    var payloads := EmitCommands(d, table);
    var events := EmitEvents(d, table);
    m := Mod(ModuleName(d.domain), types + payloads + events);
  }

  /** main: collect the table, then generate every domain against it. */
  method Generate(domains: seq<Domain>) returns (mods: seq<Mod>)
    ensures mods == Program(domains)
  {
    hide GeneratedModule;
    var table: TypeTable := map[];
    for i := 0 to |domains|
      invariant table == TableOf(domains[..i])
    {
      assert domains[..i+1][..i] == domains[..i];
      table := table[domains[i].domain := Ids(domains[i].types)];
    }
    assert domains[..|domains|] == domains;
    mods := [];
    for i := 0 to |domains|
      invariant |mods| == i && forall k :: 0 <= k < i ==> mods[k] == GeneratedModule(domains[k], table)
    {
      var m := GenerateDomain(domains[i], table);
      mods := mods + [m];
    }
  }

  // ---------------------------------------------------------------- closure

  predicate Declares(m: Mod, name: string) {
    exists d :: d in m.decls && d.id == name
  }

  /** Every path in the type is a builtin, is declared in module `here`, or is declared
      in the module of the program that it names. */
  ghost predicate Resolves(program: seq<Mod>, here: Mod, t: RustType) {
    match t
    case Local(name) => Declares(here, name)
    case Foreign(mod, name) => exists m :: m in program && m.name == mod && Declares(m, name)
    case Vec(elem) => Resolves(program, here, elem)
    case Opt(inner) => Resolves(program, here, inner)
    case Boxed(inner) => Resolves(program, here, inner)
    case _ => true
  }

  /** The field's text spells the property's type, and all of its paths resolve. */
  ghost predicate FieldResolves(program: seq<Mod>, here: Mod, p: Property, owner: Option<string>, current: string, table: TypeTable, f: FieldDecl) {
    && f.ty == Render(FieldTree(p, owner, current, table))
    && Resolves(program, here, FieldTree(p, owner, current, table))
  }

  /** The property lists of a domain, with the schema type they belong to, if any. */
  predicate InSchema(d: Domain, ps: seq<Property>, owner: Option<string>) {
    || (owner.Some? && exists td :: td in d.types && td.id == owner.value && td.properties == ps)
    || (owner.None? && exists c :: c in d.commands && (c.parameters == ps || c.returns_ == ps))
    || (owner.None? && exists e :: e in d.events && e.parameters == ps)
  }

  /** The struct's fields are those of a property list of the domain, one for one. */
  ghost predicate StructResolves(program: seq<Mod>, d: Domain, table: TypeTable, fields: seq<FieldDecl>) {
    exists ps, owner :: InSchema(d, ps, owner) && FieldsMatch(program, d, table, ps, owner, fields)
  }

  ghost predicate FieldsMatch(program: seq<Mod>, d: Domain, table: TypeTable, ps: seq<Property>, owner: Option<string>, fields: seq<FieldDecl>) {
    && |fields| == |ps|
    && forall i :: 0 <= i < |ps| ==> FieldResolves(program, GeneratedModule(d, table), ps[i], owner, d.domain, table, fields[i])
  }

  ghost predicate DeclResolves(program: seq<Mod>, d: Domain, table: TypeTable, x: Decl) {
    match x
    case EnumDecl(_, _) => true
    case StructDecl(_, fields) => StructResolves(program, d, table, fields)
    case AliasDecl(_, target) => Resolves(program, GeneratedModule(d, table), target)
  }

  /** The program generated from the domains refers to nothing that it does not declare. */
  ghost predicate Closed(domains: seq<Domain>) {
    forall i, x :: 0 <= i < |domains| && x in Program(domains)[i].decls ==>
      DeclResolves(Program(domains), domains[i], TableOf(domains), x)
  }

  /** The kinds of schema type that yield a declaration. */
  predicate Emitted(td: TypeDef) {
    td.enumValues != [] || td.kind in {"object", "array", "string", "integer", "number"}
  }

  lemma EmittedIsDeclared(td: TypeDef, current: string, table: TypeTable)
    ensures Emitted(td) <==> TypeDecl(td, current, table) != []
    ensures forall d :: d in TypeDecl(td, current, table) ==> d.id == td.id
  {}

  lemma {:induction false} TypesAreDeclared(tds: seq<TypeDef>, current: string, table: TypeTable)
    ensures forall td :: td in tds && Emitted(td) ==> exists d :: d in TypeDecls(tds, current, table) && d.id == td.id
    ensures forall d :: d in TypeDecls(tds, current, table) ==> exists td :: td in tds && Emitted(td) && d in TypeDecl(td, current, table)
  {
    hide TypeDecl, Emitted;
    if tds != [] {
      var prior, last := tds[..|tds|-1], tds[|tds|-1];
      assert tds == prior + [last];
      TypesAreDeclared(prior, current, table);
      EmittedIsDeclared(last, current, table);
      if Emitted(last) {
        var d := TypeDecl(last, current, table)[0];
        assert d in TypeDecls(tds, current, table) && d.id == last.id;
      }
    }
  }

  /** What the protocol must promise about a reference made inside `d`. */
  predicate RefDeclared(r: string, d: Domain) {
    match Halves(r)
    case Some((domain, name)) => domain == d.domain ==> name in Ids(d.types)
    case None => r in Ids(d.types)
  }

  /** A boxed field must also not refer to a type spelled with angle brackets. */
  predicate PropertyDeclared(p: Property, owner: Option<string>, d: Domain) {
    && (p.ref.Some? ==> RefDeclared(p.ref.value, d))
    && (p.ref.Some? && IsRecursive(d.domain, owner, p.name) ==> '<' !in p.ref.value)
    && (p.items.Some? && p.items.value.ref.Some? ==> RefDeclared(p.items.value.ref.value, d))
  }

  predicate AllDeclared(ps: seq<Property>, owner: Option<string>, d: Domain) {
    forall p :: p in ps ==> PropertyDeclared(p, owner, d)
  }

  /** A protocol whose own references are declared: ids are what PascalCase makes of
      them and of a kind that is emitted, and every reference without a foreign domain
      names a type of its own domain. */
  ghost predicate WellFormedDomain(d: Domain) {
    && (forall td :: td in d.types ==> Pascal(td.id) == td.id && Emitted(td) && AllDeclared(td.properties, Some(td.id), d))
    && (forall c :: c in d.commands ==> AllDeclared(c.parameters, None, d) && AllDeclared(c.returns_, None, d))
    && (forall e :: e in d.events ==> AllDeclared(e.parameters, None, d))
  }

  ghost predicate WellFormedProtocol(domains: seq<Domain>) {
    && (forall d :: d in domains ==> WellFormedDomain(d))
    && (forall i, j :: 0 <= i < j < |domains| ==> domains[i].domain != domains[j].domain && ModuleName(domains[i].domain) != ModuleName(domains[j].domain))
  }

  lemma {:induction false} TableIsExact(domains: seq<Domain>)
    requires forall i, j :: 0 <= i < j < |domains| ==> domains[i].domain != domains[j].domain
    ensures forall d :: d in domains ==> d.domain in TableOf(domains) && TableOf(domains)[d.domain] == Ids(d.types)
    ensures forall name :: name in TableOf(domains) ==> exists d :: d in domains && d.domain == name
  {
    if domains != [] {
      var prior, last := domains[..|domains|-1], domains[|domains|-1];
      assert domains == prior + [last];
      TableIsExact(prior);
      forall d | d in prior ensures d.domain != last.domain {
        var i :| 0 <= i < |prior| && prior[i] == d;
        assert domains[i] == d;
      }
    }
  }

  lemma TypeIsDeclared(d: Domain, table: TypeTable, td: TypeDef)
    requires td in d.types && Emitted(td)
    ensures Declares(GeneratedModule(d, table), td.id)
  {
    hide TypeDecls, CommandDecls, EventDecls, Emitted, TypeDecl, ModuleName;
    var types := TypeDecls(d.types, d.domain, table);
    TypesAreDeclared(d.types, d.domain, table);
    var decl :| decl in types && decl.id == td.id;
    var decls := GeneratedModule(d, table).decls;
    assert decls[..|types|] == types;
    assert decl in decls;
  }

  lemma DomainIsGenerated(domains: seq<Domain>, d: Domain)
    requires d in domains
    ensures GeneratedModule(d, TableOf(domains)) in Program(domains)
  {
    hide GeneratedModule, TableOf;
    var i :| 0 <= i < |domains| && domains[i] == d;
    assert Program(domains)[i] == GeneratedModule(d, TableOf(domains));
  }

  lemma DomainDeclares(domains: seq<Domain>, d: Domain, name: string)
    requires WellFormedProtocol(domains) && d in domains && name in Ids(d.types)
    ensures Declares(GeneratedModule(d, TableOf(domains)), Pascal(name))
    ensures GeneratedModule(d, TableOf(domains)) in Program(domains)
  {
    hide Pascal, GeneratedModule, Emitted, AllDeclared, TableOf, ModuleName, Program, Declares;
    var td :| td in d.types && td.id == name;
    assert WellFormedDomain(d);
    TypeIsDeclared(d, TableOf(domains), td);
    DomainIsGenerated(domains, d);
  }

  /** A reference resolves: in its own module, in the module it names, or as a JSON value. */
  lemma RefResolves(domains: seq<Domain>, d: Domain, r: string)
    requires WellFormedProtocol(domains) && d in domains && RefDeclared(r, d)
    ensures Resolves(Program(domains), GeneratedModule(d, TableOf(domains)), ResolveRef(r, d.domain, TableOf(domains)))
  {
    hide Pascal, GeneratedModule, WellFormedDomain, Snake;
    var table := TableOf(domains);
    match Halves(r)
    case None =>
      DomainDeclares(domains, d, r);
    case Some((domain, name)) =>
      if domain == d.domain {
        DomainDeclares(domains, d, name);
      } else if domain in table && name in table[domain] {
        TableIsExact(domains);
        var other :| other in domains && other.domain == domain;
        DomainDeclares(domains, other, name);
        ModuleNameOf(other, table);
      }
  }

  lemma ModuleNameOf(d: Domain, table: TypeTable)
    ensures GeneratedModule(d, table).name == ModuleName(d.domain)
  {}

  lemma PropertyResolves(domains: seq<Domain>, d: Domain, p: Property, owner: Option<string>)
    requires WellFormedProtocol(domains) && d in domains && PropertyDeclared(p, owner, d)
    ensures var table := TableOf(domains);
            FieldResolves(Program(domains), GeneratedModule(d, table), p, owner, d.domain, table, FieldOf(p, owner, d.domain, table))
  {
    hide GeneratedModule, WellFormedDomain, ResolveRef, Render, WellFormedProtocol, RefDeclared, BoxText, Snake;
    var program, here, table := Program(domains), GeneratedModule(d, TableOf(domains)), TableOf(domains);
    if p.ref.Some? {
      RefResolves(domains, d, p.ref.value);
    }
    if p.items.Some? && p.items.value.ref.Some? {
      RefResolves(domains, d, p.items.value.ref.value);
    }
    var t := MapType(p, d.domain, table);
    if IsRecursive(d.domain, owner, p.name) {
      MappedTypesAreNotMisread(p, d.domain, table);
    }
    var base := if p.optional then t.inner else t;
    assert p.ref.None? && base.Vec? && p.items.Some? ==> base.elem == ItemType(p.items.value, d.domain, table);
    assert base.Vec? && p.ref.None? ==> Resolves(program, here, base.elem);
    assert Resolves(program, here, base);
    assert Resolves(program, here, t);
    assert Resolves(program, here, BoxTree(t));
  }

  lemma FieldsResolve(domains: seq<Domain>, d: Domain, ps: seq<Property>, owner: Option<string>)
    requires WellFormedProtocol(domains) && d in domains && AllDeclared(ps, owner, d) && InSchema(d, ps, owner)
    ensures StructResolves(Program(domains), d, TableOf(domains), FieldsOf(ps, owner, d.domain, TableOf(domains)))
  {
    hide GeneratedModule, WellFormedProtocol, FieldOf, FieldResolves, PropertyDeclared, InSchema, TableOf, Program;
    var program, table := Program(domains), TableOf(domains);
    var fields := FieldsOf(ps, owner, d.domain, table);
    forall i | 0 <= i < |ps| ensures FieldResolves(program, GeneratedModule(d, table), ps[i], owner, d.domain, table, fields[i]) {
      PropertyResolves(domains, d, ps[i], owner);
    }
    assert FieldsMatch(program, d, table, ps, owner, fields);
  }

  lemma {:induction false} CommandsResolve(domains: seq<Domain>, d: Domain, cs: seq<Command>)
    requires WellFormedProtocol(domains) && d in domains
    requires forall c :: c in cs ==> c in d.commands && AllDeclared(c.parameters, None, d) && AllDeclared(c.returns_, None, d)
    ensures forall x :: x in CommandDecls(cs, d.domain, TableOf(domains)) ==> DeclResolves(Program(domains), d, TableOf(domains), x)
  {
    hide GeneratedModule, WellFormedProtocol, StructResolves, AllDeclared, FieldsOf, Pascal;
    if cs != [] {
      var last := cs[|cs|-1];
      assert cs == cs[..|cs|-1] + [last];
      CommandsResolve(domains, d, cs[..|cs|-1]);
      FieldsResolve(domains, d, last.parameters, None);
      FieldsResolve(domains, d, last.returns_, None);
    }
  }

  lemma {:induction false} EventsResolve(domains: seq<Domain>, d: Domain, es: seq<Event>)
    requires WellFormedProtocol(domains) && d in domains
    requires forall e :: e in es ==> e in d.events && AllDeclared(e.parameters, None, d)
    ensures forall x :: x in EventDecls(es, d.domain, TableOf(domains)) ==> DeclResolves(Program(domains), d, TableOf(domains), x)
  {
    hide GeneratedModule, WellFormedProtocol, StructResolves, AllDeclared, FieldsOf, Pascal;
    if es != [] {
      var last := es[|es|-1];
      assert es == es[..|es|-1] + [last];
      EventsResolve(domains, d, es[..|es|-1]);
      FieldsResolve(domains, d, last.parameters, None);
    }
  }

  lemma TypeResolves(domains: seq<Domain>, d: Domain, td: TypeDef)
    requires WellFormedProtocol(domains) && d in domains && td in d.types && AllDeclared(td.properties, Some(td.id), d)
    ensures forall x :: x in TypeDecl(td, d.domain, TableOf(domains)) ==> DeclResolves(Program(domains), d, TableOf(domains), x)
  {
    hide GeneratedModule, StructResolves, AllDeclared, FieldsOf, Variants, WellFormedProtocol, TableOf, Program;
    var table := TableOf(domains);
    var program, here := Program(domains), GeneratedModule(d, table);
    FieldsResolve(domains, d, td.properties, Some(td.id));
    assert Resolves(program, here, JsonValue);
    assert Resolves(program, here, Vec(JsonValue));
    forall x | x in TypeDecl(td, d.domain, table) ensures DeclResolves(program, d, table, x) {
      if x.StructDecl? {
        assert x.fields == FieldsOf(td.properties, Some(td.id), d.domain, table);
      } else if x.AliasDecl? {
        assert x.target in {JsonValue, Vec(JsonValue), Str, I64, F64};
      }
    }
  }

  lemma TypesResolve(domains: seq<Domain>, d: Domain)
    requires WellFormedProtocol(domains) && d in domains
    ensures forall x :: x in TypeDecls(d.types, d.domain, TableOf(domains)) ==> DeclResolves(Program(domains), d, TableOf(domains), x)
  {
    hide GeneratedModule, DeclResolves, AllDeclared, TypeDecl, TypeDecls, TableOf, Emitted, Pascal;
    var table := TableOf(domains);
    TypesAreDeclared(d.types, d.domain, table);
    forall x | x in TypeDecls(d.types, d.domain, table) ensures DeclResolves(Program(domains), d, table, x) {
      var td :| td in d.types && Emitted(td) && x in TypeDecl(td, d.domain, table);
      assert WellFormedDomain(d);
      TypeResolves(domains, d, td);
    }
  }

  /** The compiler's main guarantee: a well-formed protocol compiles to a closed program. */
  lemma GeneratedCodeIsClosed(domains: seq<Domain>)
    requires WellFormedProtocol(domains)
    ensures Closed(domains)
  {
    hide DeclResolves, TypeDecls, CommandDecls, EventDecls;
    forall i, x | 0 <= i < |domains| && x in Program(domains)[i].decls
      ensures DeclResolves(Program(domains), domains[i], TableOf(domains), x)
    {
      var d := domains[i];
      assert d in domains && Program(domains)[i] == GeneratedModule(d, TableOf(domains)) && WellFormedDomain(d);
      TypesResolve(domains, d);
      CommandsResolve(domains, d, d.commands);
      EventsResolve(domains, d, d.events);
    }
  }
}
