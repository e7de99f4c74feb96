/**
 The SDK type generator: a compiler from JSON Schema nodes to Python and TypeScript types.
 Schemas, emitted types and JSON values are trees; because `$ref` works by name, meaning
 is indexed by the number of references that may still be followed.
 */
module SdkTypes {
  import opened Common
  import opened JsonValues

  // ----- schemas -----

  datatype Kind = One(name: string) | Several(names: seq<string>)

  datatype Additional = Unsaid | Flag(allowed: bool) | Shape(shape: Node)

  datatype Alternatives = Unused | Listed(nodes: seq<Node>)

  datatype Property = Property(name: string, node: Node)

  datatype Properties = Undeclared | Declared(entries: seq<Property>)

  /** A schema node: the keywords the generator reads. `mark` stands for all the others. */
  datatype Node = Node(
    ref: Option<string>,
    constant: Option<Json>,
    enumeration: Option<seq<Json>>,
    anyOf: Alternatives,
    oneOf: Alternatives,
    kind: Option<Kind>,
    items: Option<Node>,
    properties: Properties,
    additional: Additional,
    required: Option<seq<string>>,
    mark: nat)

  datatype Schema = Schema(defs: Option<seq<(string, Node)>>, oneOf: Alternatives)

  /** The entry of a name; as in a dictionary or a module, a later entry replaces an earlier one. */
  function Lookup<T>(entries: seq<(string, T)>, name: string): (r: Option<T>)
    ensures r.Some? ==> exists i | 0 <= i < |entries| :: entries[i] == (name, r.value)
  {
    if entries == [] then None
    else
      var last := entries[|entries| - 1];
      if last.0 == name then Some(last.1) else Lookup(entries[..|entries| - 1], name)
  }

  const REF_PREFIX := "#/$defs/"

  /**
   Whether a schema accepts a value when at most `fuel` references in a row are followed.
   Every keyword restricts, and `admits` says what the keywords outside this model demand.
   */
  ghost predicate Accepts(fuel: nat, defs: seq<(string, Node)>, admits: (nat, Json) -> bool, n: Node, v: Json)
    decreases fuel, n
  {
    && admits(n.mark, v)
    && (n.ref.Some? ==>
          && REF_PREFIX <= n.ref.value
          && var target := Lookup(defs, n.ref.value[|REF_PREFIX|..]);
          fuel > 0 && target.Some? && Accepts(fuel - 1, defs, admits, target.value, v))
    && (n.constant.Some? ==> v == n.constant.value)
    && (n.enumeration.Some? ==> v in n.enumeration.value)
    && (n.anyOf.Listed? ==> exists i | 0 <= i < |n.anyOf.nodes| :: Accepts(fuel, defs, admits, n.anyOf.nodes[i], v))
    && (n.oneOf.Listed? ==> exists i | 0 <= i < |n.oneOf.nodes| ::
          && Accepts(fuel, defs, admits, n.oneOf.nodes[i], v)
          && forall j | 0 <= j < |n.oneOf.nodes| && j != i :: !Accepts(fuel, defs, admits, n.oneOf.nodes[j], v))
    && (n.kind.Some? ==>
          match n.kind.value
          case One(name) => HasKind(v, name)
          case Several(names) => exists i | 0 <= i < |names| :: HasKind(v, names[i]))
    && (n.items.Some? && v.Array? ==>
          forall i | 0 <= i < |v.elements| :: Accepts(fuel, defs, admits, n.items.value, v.elements[i]))
    && (v.Object? ==>
          && (n.properties.Declared? ==> forall i | 0 <= i < |n.properties.entries| ::
                n.properties.entries[i].name in v.members ==>
                Accepts(fuel, defs, admits, n.properties.entries[i].node, v.members[n.properties.entries[i].name]))
          && (n.required.Some? ==> forall name | name in n.required.value :: name in v.members)
          && (forall name | name in v.members && !Declares(n, name) ::
                match n.additional
                case Unsaid => true
                case Flag(allowed) => allowed
                case Shape(shape) => Accepts(fuel, defs, admits, shape, v.members[name])))
  }

  predicate Declares(n: Node, name: string) {
    n.properties.Declared? && exists i | 0 <= i < |n.properties.entries| :: n.properties.entries[i].name == name
  }

  // ----- emitted types -----

  datatype Language = Python | TypeScript

  datatype Type =
    | Name(name: string)
    | LiteralOf(texts: seq<string>)      // Literal["a", "b"]
    | LiteralText(literal: string)       // "a"
    | Union(members: seq<Type>)
    | StringType | IntType | FloatType | NumberType | BooleanType | NullType
    | ListOf(item: Type)
    | JsonObject                         // dict[str, JsonValue], Record<string, JsonValue>

  datatype Field = Field(name: string, required: bool, hint: Type)

  datatype Declaration = Alias(target: Type) | Class(fields: seq<Field>)

  datatype Module = Module(declarations: seq<(string, Declaration)>, message: Type)

  ghost predicate Inhabits(fuel: nat, ds: seq<(string, Declaration)>, t: Type, v: Json)
    decreases fuel, t, 0
  {
    match t
    case Name(name) =>
      var d := Lookup(ds, name);
      fuel > 0 && d.Some? && Satisfies(fuel - 1, ds, d.value, v)
    case LiteralOf(texts) => v.Text? && v.text in texts
    case LiteralText(literal) => v == Text(literal)
    case Union(members) => exists i | 0 <= i < |members| :: Inhabits(fuel, ds, members[i], v)
    case StringType => v.Text?
    case IntType => v.Number? && v.number == v.number.Floor as real
    case FloatType => v.Number?
    case NumberType => v.Number?
    case BooleanType => v.Bool?
    case NullType => v.Null?
    case ListOf(item) => v.Array? && forall i | 0 <= i < |v.elements| :: Inhabits(fuel, ds, item, v.elements[i])
    case JsonObject => v.Object?
  }

  /** A class, like an interface, is closed: it holds its required fields and no undeclared ones. */
  ghost predicate Satisfies(fuel: nat, ds: seq<(string, Declaration)>, d: Declaration, v: Json)
    decreases fuel, d, 1
  {
    match d
    case Alias(target) => Inhabits(fuel, ds, target, v)
    case Class(fields) =>
      && v.Object?
      && (forall i | 0 <= i < |fields| ::
            && (fields[i].required ==> fields[i].name in v.members)
            && (fields[i].name in v.members ==> Inhabits(fuel, ds, fields[i].hint, v.members[fields[i].name])))
      && (forall name | name in v.members :: exists i | 0 <= i < |fields| :: fields[i].name == name)
  }

  // ----- the generator -----

  datatype Error = ReferenceNotLocal | LiteralNotString | ShapeUnsupported | KeyMissing
                 | DefinitionNotIdentifier | PropertyNotIdentifier | ObjectNotClosed

  predicate IsPrimitive(name: string) {
    name in {"string", "integer", "number", "boolean", "null"}
  }

  function Primitive(name: string, language: Language): Type
    requires IsPrimitive(name)
  {
    match name
    case "string" => StringType
    case "boolean" => BooleanType
    case "null" => NullType
    case _ => if language == Python then Union([IntType, FloatType]) else NumberType
  }

  function Texts(values: seq<Json>): (r: seq<string>)
    requires forall v | v in values :: v.Text?
    ensures |r| == |values| && forall i | 0 <= i < |r| :: values[i] == Text(r[i])
  {
    if values == [] then []
    else
      assert values[0] in values;
      [values[0].text] + Texts(values[1..])
  }

  function Literals(values: seq<string>): (r: seq<Type>)
    ensures |r| == |values| && forall i | 0 <= i < |r| :: r[i] == LiteralText(values[i])
  {
    seq(|values|, i requires 0 <= i < |values| => LiteralText(values[i]))
  }

  /** type_expression. */
  function TypeExpression(n: Node, language: Language): Result<Type, Error>
    decreases n
  {
    if n.ref.Some? then
      if REF_PREFIX <= n.ref.value then Ok(Name(n.ref.value[|REF_PREFIX|..])) else Err(ReferenceNotLocal)
    else if n.constant.Some? || n.enumeration.Some? then
      var values := if n.constant.Some? then [n.constant.value] else n.enumeration.value;
      if exists v | v in values :: !v.Text? then Err(LiteralNotString)
      else if language == Python then Ok(LiteralOf(Texts(values)))
      else Ok(Union(Literals(Texts(values))))
    else if n.anyOf.Listed? then UnionExpression(n.anyOf.nodes, language)
    else if n.oneOf.Listed? then UnionExpression(n.oneOf.nodes, language)
    else if n.kind.Some? && n.kind.value.Several? then Err(ShapeUnsupported)
    else if n.kind.Some? && IsPrimitive(n.kind.value.name) then Ok(Primitive(n.kind.value.name, language))
    else if n.kind == Some(One("array")) then
      if n.items.None? then Err(KeyMissing)
      else match TypeExpression(n.items.value, language)
           case Err(e) => Err(e)
           case Ok(item) => Ok(ListOf(item))
    else if n.kind == Some(One("object")) && (n.properties.Undeclared? || n.properties.entries == [])
      && n.additional == Flag(true) then
      Ok(JsonObject)
    else Err(ShapeUnsupported)
  }

  function UnionExpression(ns: seq<Node>, language: Language): Result<Type, Error>
    decreases ns, 1
  {
    match TypeExpressions(ns, language)
    case Err(e) => Err(e)
    case Ok(types) => Ok(Union(types))
  }

  function TypeExpressions(ns: seq<Node>, language: Language): (r: Result<seq<Type>, Error>)
    ensures r.Ok? ==> |r.value| == |ns| && forall i | 0 <= i < |ns| :: TypeExpression(ns[i], language) == Ok(r.value[i])
    decreases ns, 0
  {
    if ns == [] then Ok([])
    else match TypeExpression(ns[0], language)
         case Err(e) => Err(e)
         case Ok(first) =>
           match TypeExpressions(ns[1..], language)
           case Err(e) => Err(e)
           case Ok(rest) => Ok([first] + rest)
  }

  function FieldExpressions(n: Node, properties: seq<Property>, language: Language,
        identifier: string -> bool): (r: Result<seq<Field>, Error>)
    ensures r.Ok? ==>
      && |r.value| == |properties|
      && forall i | 0 <= i < |properties| ::
           && r.value[i].name == properties[i].name
           && r.value[i].required == IsRequired(n, properties[i].name)
           && TypeExpression(properties[i].node, language) == Ok(r.value[i].hint)
  {
    if properties == [] then Ok([])
    else
      var Property(name, property) := properties[|properties| - 1];
      match FieldExpressions(n, properties[..|properties| - 1], language, identifier)
      case Err(e) => Err(e)
      case Ok(fields) =>
        if !identifier(name) then Err(PropertyNotIdentifier)
        else match TypeExpression(property, language)
             case Err(e) => Err(e)
             case Ok(hint) => Ok(fields + [Field(name, IsRequired(n, name), hint)])
  }

  predicate IsRequired(n: Node, name: string) {
    n.required.Some? && name in n.required.value
  }

  /** What one definition turns into. */
  function DeclarationOf(name: string, n: Node, language: Language,
        identifier: string -> bool): Result<Declaration, Error>
  {
    if !identifier(name) then Err(DefinitionNotIdentifier)
    else if n.properties.Undeclared? then
      match TypeExpression(n, language)
      case Err(e) => Err(e)
      case Ok(t) => Ok(Alias(t))
    else if n.additional != Flag(false) then Err(ObjectNotClosed)
    else match FieldExpressions(n, n.properties.entries, language, identifier)
         case Err(e) => Err(e)
         case Ok(fields) => Ok(Class(fields))
  }

  function Declarations(defs: seq<(string, Node)>, language: Language,
        identifier: string -> bool): (r: Result<seq<(string, Declaration)>, Error>)
    ensures r.Ok? ==> Emitted(defs, r.value, language, identifier)
  {
    if defs == [] then Ok([])
    else
      var (name, n) := defs[|defs| - 1];
      match Declarations(defs[..|defs| - 1], language, identifier)
      case Err(e) => Err(e)
      case Ok(ds) =>
        match DeclarationOf(name, n, language, identifier)
        case Err(e) => Err(e)
        case Ok(d) => Ok(ds + [(name, d)])
  }

  /** Definition by definition, the declarations are what the definitions turn into. */
  ghost predicate Emitted(defs: seq<(string, Node)>, ds: seq<(string, Declaration)>, language: Language,
        identifier: string -> bool)
  {
    && |ds| == |defs|
    && forall i | 0 <= i < |defs| ::
         ds[i].0 == defs[i].0 && DeclarationOf(defs[i].0, defs[i].1, language, identifier) == Ok(ds[i].1)
  }

  function Rendered(schema: Schema, language: Language, identifier: string -> bool): Result<Module, Error> {
    if schema.defs.None? then Err(KeyMissing)
    else match Declarations(schema.defs.value, language, identifier)
         case Err(e) => Err(e)
         case Ok(ds) =>
           if schema.oneOf.Unused? then Err(KeyMissing)
           else match UnionExpression(schema.oneOf.nodes, language)
                case Err(e) => Err(e)
                case Ok(message) => Ok(Module(ds, message))
  }

  /** render_types, with declarations in place of lines of text. */
  method RenderTypes(schema: Schema, language: Language, identifier: string -> bool) returns (r: Result<Module, Error>)
    ensures r == Rendered(schema, language, identifier)
  {
    hide TypeExpression, TypeExpressions, UnionExpression, FieldExpressions;
    if schema.defs.None? {
      return Err(KeyMissing);
    }
    var defs := schema.defs.value;
    var lines: seq<(string, Declaration)> := [];
    for i := 0 to |defs|
      invariant Declarations(defs[..i], language, identifier) == Ok(lines)
    {
      assert defs[..i + 1][..i] == defs[..i];
      var (name, node) := defs[i];
      if !identifier(name) {
        DeclarationsFail(defs, i + 1, language, identifier);
        return Err(DefinitionNotIdentifier);
      }
      if node.properties.Undeclared? {
        var expression := TypeExpression(node, language);
        if expression.Err? {
          DeclarationsFail(defs, i + 1, language, identifier);
          return Err(expression.error);
        }
        lines := lines + [(name, Alias(expression.value))];
      } else {
        if node.additional != Flag(false) {
          DeclarationsFail(defs, i + 1, language, identifier);
          return Err(ObjectNotClosed);
        }
        var fields := RenderFields(node, language, identifier);
        if fields.Err? {
          DeclarationsFail(defs, i + 1, language, identifier);
          return Err(fields.error);
        }
        lines := lines + [(name, Class(fields.value))];
      }
    }
    assert defs[..|defs|] == defs;
    if schema.oneOf.Unused? {
      return Err(KeyMissing);
    }
    var message := UnionExpression(schema.oneOf.nodes, language);
    if message.Err? {
      return Err(message.error);
    }
    r := Ok(Module(lines, message.value));
  }

  method RenderFields(node: Node, language: Language, identifier: string -> bool) returns (r: Result<seq<Field>, Error>)
    requires node.properties.Declared?
    ensures r == FieldExpressions(node, node.properties.entries, language, identifier)
  {
    hide TypeExpression, IsRequired, FieldExpressions;
    NoFields(node, language, identifier);
    var properties := node.properties.entries;
    var fields: seq<Field> := [];
    for i := 0 to |properties|
      invariant FieldExpressions(node, properties[..i], language, identifier) == Ok(fields)
    {
      var Property(field, property) := properties[i];
      if !identifier(field) {
        NextField(node, properties, i, language, identifier);
        FieldsFail(node, properties, i + 1, language, identifier);
        return Err(PropertyNotIdentifier);
      }
      var expression := TypeExpression(property, language);
      if expression.Err? {
        NextField(node, properties, i, language, identifier);
        FieldsFail(node, properties, i + 1, language, identifier);
        return Err(expression.error);
      }
      NextField(node, properties, i, language, identifier);
      fields := fields + [Field(field, IsRequired(node, field), expression.value)];
    }
    assert properties[..|properties|] == properties;
    r := Ok(fields);
  }

  /** The first failing definition decides the error. */
  lemma {:induction false} DeclarationsFail(defs: seq<(string, Node)>, k: nat, language: Language,
        identifier: string -> bool)
    requires k <= |defs| && Declarations(defs[..k], language, identifier).Err?
    ensures Declarations(defs, language, identifier) == Declarations(defs[..k], language, identifier)
    decreases |defs|
  {
    if k < |defs| {
      var shorter := defs[..|defs| - 1];
      assert shorter[..k] == defs[..k];
      DeclarationsFail(shorter, k, language, identifier);
    } else {
      assert defs[..k] == defs;
    }
  }

  lemma {:induction false} FieldsFail(n: Node, properties: seq<Property>, k: nat, language: Language,
        identifier: string -> bool)
    requires k <= |properties| && FieldExpressions(n, properties[..k], language, identifier).Err?
    ensures FieldExpressions(n, properties, language, identifier)
      == FieldExpressions(n, properties[..k], language, identifier)
    decreases |properties|
  {
    if k < |properties| {
      var shorter := properties[..|properties| - 1];
      assert shorter[..k] == properties[..k];
      FieldsFail(n, shorter, k, language, identifier);
    } else {
      assert properties[..k] == properties;
    }
  }

  lemma NoFields(n: Node, language: Language, identifier: string -> bool)
    ensures FieldExpressions(n, [], language, identifier) == Ok([])
  {
  }

  /** What one more property adds to the fields before it. */
  lemma NextField(n: Node, properties: seq<Property>, i: nat, language: Language, identifier: string -> bool)
    requires i < |properties| && FieldExpressions(n, properties[..i], language, identifier).Ok?
    ensures var Property(name, property) := properties[i];
      var fields := FieldExpressions(n, properties[..i], language, identifier).value;
      FieldExpressions(n, properties[..i + 1], language, identifier) ==
        if !identifier(name) then Err(PropertyNotIdentifier)
        else match TypeExpression(property, language)
             case Err(e) => Err(e)
             case Ok(hint) => Ok(fields + [Field(name, IsRequired(n, name), hint)])
  {
    hide TypeExpression, IsRequired;
    assert properties[..i + 1][..i] == properties[..i];
  }

  // ----- both languages -----

  ghost predicate Agree<S, T>(p: Result<S, Error>, t: Result<T, Error>) {
    (p.Err? <==> t.Err?) && (p.Err? ==> p.error == t.error)
  }

  /** A node has a Python type exactly when it has a TypeScript type, and otherwise the same error. */
  lemma {:induction false} ExpressionsAgree(n: Node)
    ensures Agree(TypeExpression(n, Python), TypeExpression(n, TypeScript))
    decreases n
  {
    if n.ref.Some? || n.constant.Some? || n.enumeration.Some? {
    } else if n.anyOf.Listed? {
      UnionsAgree(n.anyOf.nodes);
    } else if n.oneOf.Listed? {
      UnionsAgree(n.oneOf.nodes);
    } else if n.items.Some? {
      ExpressionsAgree(n.items.value);
    }
  }

  lemma {:induction false} UnionsAgree(ns: seq<Node>)
    ensures Agree(TypeExpressions(ns, Python), TypeExpressions(ns, TypeScript))
    decreases ns
  {
    if ns != [] {
      ExpressionsAgree(ns[0]);
      UnionsAgree(ns[1..]);
    }
  }

  lemma {:induction false} FieldsAgree(n: Node, properties: seq<Property>, identifier: string -> bool)
    ensures Agree(FieldExpressions(n, properties, Python, identifier),
      FieldExpressions(n, properties, TypeScript, identifier))
  {
    if properties != [] {
      FieldsAgree(n, properties[..|properties| - 1], identifier);
      ExpressionsAgree(properties[|properties| - 1].node);
    }
  }

  lemma {:induction false} DeclarationsAgree(defs: seq<(string, Node)>, identifier: string -> bool)
    ensures Agree(Declarations(defs, Python, identifier), Declarations(defs, TypeScript, identifier))
  {
    if defs != [] {
      var (name, n) := defs[|defs| - 1];
      DeclarationsAgree(defs[..|defs| - 1], identifier);
      ExpressionsAgree(n);
      if n.properties.Declared? {
        FieldsAgree(n, n.properties.entries, identifier);
      }
    }
  }

  /** The generator writes both SDKs or neither, and fails on both for the same reason. */
  lemma BothOrNeither(schema: Schema, identifier: string -> bool)
    ensures Agree(Rendered(schema, Python, identifier), Rendered(schema, TypeScript, identifier))
  {
    if schema.defs.Some? {
      DeclarationsAgree(schema.defs.value, identifier);
    }
    if schema.oneOf.Listed? {
      UnionsAgree(schema.oneOf.nodes);
    }
  }

  /** Where a name leads in the schema, it leads in the emitted module. */
  lemma {:induction false} LookupEmitted(defs: seq<(string, Node)>, ds: seq<(string, Declaration)>, language: Language,
        identifier: string -> bool, name: string)
    requires Emitted(defs, ds, language, identifier)
    ensures Lookup(defs, name).Some? <==> Lookup(ds, name).Some?
    ensures Lookup(defs, name).Some? ==>
      && DeclarationOf(name, Lookup(defs, name).value, language, identifier) == Ok(Lookup(ds, name).value)
      && exists i | 0 <= i < |defs| :: defs[i] == (name, Lookup(defs, name).value)
    decreases |defs|
  {
    if defs != [] && defs[|defs| - 1].0 != name {
      LookupEmitted(defs[..|defs| - 1], ds[..|ds| - 1], language, identifier, name);
    }
  }

  ghost predicate EmittedBoth(defs: seq<(string, Node)>, ps: seq<(string, Declaration)>, ts: seq<(string, Declaration)>,
        identifier: string -> bool)
  {
    Emitted(defs, ps, Python, identifier) && Emitted(defs, ts, TypeScript, identifier)
  }

  /** The two types of a node accept the same values, however deep the references go. */
  lemma {:induction false} TypesAgree(fuel: nat, defs: seq<(string, Node)>, ps: seq<(string, Declaration)>,
        ts: seq<(string, Declaration)>, identifier: string -> bool, n: Node, v: Json)
    requires EmittedBoth(defs, ps, ts, identifier)
    requires TypeExpression(n, Python).Ok? && TypeExpression(n, TypeScript).Ok?
    ensures Inhabits(fuel, ps, TypeExpression(n, Python).value, v) <==>
      Inhabits(fuel, ts, TypeExpression(n, TypeScript).value, v)
    decreases fuel, n, 1
  {
    hide Emitted, DeclarationOf, Satisfies, Lookup, Literals, Texts;
    var p, t := TypeExpression(n, Python).value, TypeExpression(n, TypeScript).value;
    if n.ref.Some? {
      var name := n.ref.value[|REF_PREFIX|..];
      LookupEmitted(defs, ps, Python, identifier, name);
      LookupEmitted(defs, ts, TypeScript, identifier, name);
      if fuel > 0 && Lookup(defs, name).Some? {
        DeclarationTypesAgree(fuel - 1, defs, ps, ts, identifier, name, Lookup(defs, name).value, v);
      }
    } else if n.constant.Some? || n.enumeration.Some? {
      LiteralsAgree(fuel, ps, ts, p.texts, v);
    } else if n.anyOf.Listed? {
      UnionTypesAgree(fuel, defs, ps, ts, identifier, n, n.anyOf.nodes, v);
    } else if n.oneOf.Listed? {
      UnionTypesAgree(fuel, defs, ps, ts, identifier, n, n.oneOf.nodes, v);
    } else if IsPrimitive(n.kind.value.name) {
      PrimitivesAgree(fuel, ps, ts, n.kind.value.name, v);
    } else if n.kind == Some(One("array")) && v.Array? {
      forall i | 0 <= i < |v.elements|
        ensures Inhabits(fuel, ps, p.item, v.elements[i]) <==> Inhabits(fuel, ts, t.item, v.elements[i])
      {
        TypesAgree(fuel, defs, ps, ts, identifier, n.items.value, v.elements[i]);
      }
    }
  }

  lemma LiteralsAgree(fuel: nat, ps: seq<(string, Declaration)>, ts: seq<(string, Declaration)>, texts: seq<string>,
        v: Json)
    ensures Inhabits(fuel, ps, LiteralOf(texts), v) <==> Inhabits(fuel, ts, Union(Literals(texts)), v)
  {
    if v.Text? && v.text in texts {
      var i :| 0 <= i < |texts| && texts[i] == v.text;
      assert Inhabits(fuel, ts, Literals(texts)[i], v);
    }
    if i :| 0 <= i < |texts| && Inhabits(fuel, ts, Literals(texts)[i], v) {
      assert texts[i] in texts;
    }
  }

  lemma PrimitivesAgree(fuel: nat, ps: seq<(string, Declaration)>, ts: seq<(string, Declaration)>, name: string,
        v: Json)
    requires IsPrimitive(name)
    ensures Inhabits(fuel, ps, Primitive(name, Python), v) <==> Inhabits(fuel, ts, Primitive(name, TypeScript), v)
  {
    if v.Number? {
      assert Inhabits(fuel, ps, [IntType, FloatType][1], v);
    }
  }

  lemma {:induction false} UnionTypesAgree(fuel: nat, defs: seq<(string, Node)>, ps: seq<(string, Declaration)>,
        ts: seq<(string, Declaration)>, identifier: string -> bool, n: Node, ns: seq<Node>, v: Json)
    requires EmittedBoth(defs, ps, ts, identifier)
    requires UnionExpression(ns, Python).Ok? && UnionExpression(ns, TypeScript).Ok?
    requires n.anyOf == Listed(ns) || n.oneOf == Listed(ns)
    ensures Inhabits(fuel, ps, UnionExpression(ns, Python).value, v) <==>
      Inhabits(fuel, ts, UnionExpression(ns, TypeScript).value, v)
    decreases fuel, n, 0
  {
    forall i | 0 <= i < |ns|
      ensures Inhabits(fuel, ps, UnionExpression(ns, Python).value.members[i], v)
         <==> Inhabits(fuel, ts, UnionExpression(ns, TypeScript).value.members[i], v)
    {
      TypesAgree(fuel, defs, ps, ts, identifier, ns[i], v);
    }
  }

  lemma {:induction false} DeclarationTypesAgree(fuel: nat, defs: seq<(string, Node)>, ps: seq<(string, Declaration)>,
        ts: seq<(string, Declaration)>, identifier: string -> bool, name: string, n: Node, v: Json)
    requires EmittedBoth(defs, ps, ts, identifier)
    requires DeclarationOf(name, n, Python, identifier).Ok? && DeclarationOf(name, n, TypeScript, identifier).Ok?
    ensures Satisfies(fuel, ps, DeclarationOf(name, n, Python, identifier).value, v)
       <==> Satisfies(fuel, ts, DeclarationOf(name, n, TypeScript, identifier).value, v)
    decreases fuel, n, 2
  {
    if n.properties.Undeclared? {
      TypesAgree(fuel, defs, ps, ts, identifier, n, v);
    } else if v.Object? {
      var properties := n.properties.entries;
      var pf := FieldExpressions(n, properties, Python, identifier).value;
      var tf := FieldExpressions(n, properties, TypeScript, identifier).value;
      forall i | 0 <= i < |properties| && properties[i].name in v.members
        ensures Inhabits(fuel, ps, pf[i].hint, v.members[properties[i].name]) <==>
          Inhabits(fuel, ts, tf[i].hint, v.members[properties[i].name])
      {
        TypesAgree(fuel, defs, ps, ts, identifier, properties[i].node, v.members[properties[i].name]);
      }
      assert forall i | 0 <= i < |properties| :: pf[i].name == tf[i].name && pf[i].required == tf[i].required;
    }
  }

  /** The Python and the TypeScript types generated from one schema accept the same values. */
  lemma ModulesAgree(schema: Schema, identifier: string -> bool, fuel: nat, v: Json)
    requires Rendered(schema, Python, identifier).Ok? && Rendered(schema, TypeScript, identifier).Ok?
    ensures var p, t := Rendered(schema, Python, identifier).value, Rendered(schema, TypeScript, identifier).value;
      && (Inhabits(fuel, p.declarations, p.message, v) <==> Inhabits(fuel, t.declarations, t.message, v))
      && forall name :: Inhabits(fuel, p.declarations, Name(name), v) <==> Inhabits(fuel, t.declarations, Name(name), v)
  {
    var p, t := Rendered(schema, Python, identifier).value, Rendered(schema, TypeScript, identifier).value;
    var root := Plain(None).(oneOf := schema.oneOf);
    UnionTypesAgree(fuel, schema.defs.value, p.declarations, t.declarations, identifier, root, schema.oneOf.nodes, v);
    forall name
      ensures Inhabits(fuel, p.declarations, Name(name), v) <==> Inhabits(fuel, t.declarations, Name(name), v)
    {
      var node := Plain(None).(ref := Some(REF_PREFIX + name));
      assert (REF_PREFIX + name)[|REF_PREFIX|..] == name;
      TypesAgree(fuel, schema.defs.value, p.declarations, t.declarations, identifier, node, v);
    }
  }

  function Plain(kind: Option<Kind>): Node {
    Node(None, None, None, Unused, Unused, kind, None, Undeclared, Unsaid, None, 0)
  }

  // ----- the schema and the types -----

  /** Every definition that declares properties also says that it is an object. */
  ghost predicate SaysObject(defs: seq<(string, Node)>) {
    forall i | 0 <= i < |defs| :: defs[i].1.properties.Declared? ==> defs[i].1.kind == Some(One("object"))
  }

  /** A value that a node accepts, its type accepts: other keywords only ever restrict. */
  lemma {:induction false} ExpressionIsSound(fuel: nat, defs: seq<(string, Node)>, admits: (nat, Json) -> bool,
        ds: seq<(string, Declaration)>, language: Language, identifier: string -> bool, n: Node, v: Json)
    requires SaysObject(defs) && Emitted(defs, ds, language, identifier)
    requires TypeExpression(n, language).Ok? && Accepts(fuel, defs, admits, n, v)
    ensures Inhabits(fuel, ds, TypeExpression(n, language).value, v)
    decreases fuel, n, 1
  {
    hide Emitted, DeclarationOf, Satisfies, Lookup, Literals, Texts, Declares, SaysObject;
    var t := TypeExpression(n, language).value;
    if n.ref.Some? {
      ReferenceIsSound(fuel, defs, admits, ds, language, identifier, n, v);
    } else if n.constant.Some? || n.enumeration.Some? {
      var values := if n.constant.Some? then [n.constant.value] else n.enumeration.value;
      LiteralIsSound(fuel, ds, language, values, v);
    } else if n.anyOf.Listed? {
      UnionIsSound(fuel, defs, admits, ds, language, identifier, n.anyOf.nodes, v);
    } else if n.oneOf.Listed? {
      UnionIsSound(fuel, defs, admits, ds, language, identifier, n.oneOf.nodes, v);
    } else if IsPrimitive(n.kind.value.name) {
      PrimitiveIsSound(fuel, ds, language, n.kind.value.name, v);
    } else if n.kind == Some(One("array")) {
      forall i | 0 <= i < |v.elements|
        ensures Inhabits(fuel, ds, t.item, v.elements[i])
      {
        ExpressionIsSound(fuel, defs, admits, ds, language, identifier, n.items.value, v.elements[i]);
      }
    }
  }

  lemma {:induction false} UnionIsSound(fuel: nat, defs: seq<(string, Node)>, admits: (nat, Json) -> bool,
        ds: seq<(string, Declaration)>, language: Language, identifier: string -> bool, ns: seq<Node>, v: Json)
    requires SaysObject(defs) && Emitted(defs, ds, language, identifier) && UnionExpression(ns, language).Ok?
    requires exists i :: 0 <= i < |ns| && Accepts(fuel, defs, admits, ns[i], v)
    ensures Inhabits(fuel, ds, UnionExpression(ns, language).value, v)
    decreases fuel, ns, 0
  {
    hide Accepts, Emitted, SaysObject, TypeExpression, TypeExpressions, Satisfies, Lookup;
    var i :| 0 <= i < |ns| && Accepts(fuel, defs, admits, ns[i], v);
    ExpressionIsSound(fuel, defs, admits, ds, language, identifier, ns[i], v);
    assert Inhabits(fuel, ds, UnionExpression(ns, language).value.members[i], v);
  }

  lemma LiteralIsSound(fuel: nat, ds: seq<(string, Declaration)>, language: Language, values: seq<Json>, v: Json)
    requires v in values && forall w | w in values :: w.Text?
    ensures language == Python ==> Inhabits(fuel, ds, LiteralOf(Texts(values)), v)
    ensures language == TypeScript ==> Inhabits(fuel, ds, Union(Literals(Texts(values))), v)
  {
    var i :| 0 <= i < |values| && values[i] == v;
    assert Texts(values)[i] == v.text;
    assert Inhabits(fuel, ds, Literals(Texts(values))[i], v);
  }

  lemma PrimitiveIsSound(fuel: nat, ds: seq<(string, Declaration)>, language: Language, name: string, v: Json)
    requires IsPrimitive(name) && HasKind(v, name)
    ensures Inhabits(fuel, ds, Primitive(name, language), v)
  {
    if v.Number? {
      assert Inhabits(fuel, ds, [IntType, FloatType][1], v);
    }
  }

  lemma {:induction false} ReferenceIsSound(fuel: nat, defs: seq<(string, Node)>, admits: (nat, Json) -> bool,
        ds: seq<(string, Declaration)>, language: Language, identifier: string -> bool, n: Node, v: Json)
    requires SaysObject(defs) && Emitted(defs, ds, language, identifier) && n.ref.Some?
    requires TypeExpression(n, language).Ok? && Accepts(fuel, defs, admits, n, v)
    ensures Inhabits(fuel, ds, TypeExpression(n, language).value, v)
    decreases fuel, n, 0
  {
    hide Emitted, DeclarationOf, Satisfies, Lookup, Literals, Texts, Declares;
    var name := n.ref.value[|REF_PREFIX|..];
    LookupEmitted(defs, ds, language, identifier, name);
    DeclarationIsSound(fuel - 1, defs, admits, ds, language, identifier, name, Lookup(defs, name).value, v);
  }

  lemma {:induction false} DeclarationIsSound(fuel: nat, defs: seq<(string, Node)>, admits: (nat, Json) -> bool,
        ds: seq<(string, Declaration)>, language: Language, identifier: string -> bool, name: string, n: Node, v: Json)
    requires SaysObject(defs) && Emitted(defs, ds, language, identifier)
    requires n.properties.Declared? ==> n.kind == Some(One("object"))
    requires DeclarationOf(name, n, language, identifier).Ok? && Accepts(fuel, defs, admits, n, v)
    ensures Satisfies(fuel, ds, DeclarationOf(name, n, language, identifier).value, v)
    decreases fuel, n, 2
  {
    if n.properties.Undeclared? {
      ExpressionIsSound(fuel, defs, admits, ds, language, identifier, n, v);
    } else {
      var properties := n.properties.entries;
      var fields := FieldExpressions(n, properties, language, identifier).value;
      forall i | 0 <= i < |fields| && fields[i].name in v.members
        ensures Inhabits(fuel, ds, fields[i].hint, v.members[fields[i].name])
      {
        ExpressionIsSound(fuel, defs, admits, ds, language, identifier, properties[i].node,
          v.members[properties[i].name]);
      }
      forall name | name in v.members
        ensures exists i | 0 <= i < |fields| :: fields[i].name == name
      {
        assert Declares(n, name);
        var i :| 0 <= i < |properties| && properties[i].name == name;
        assert fields[i].name == name;
      }
    }
  }

  /**
   Every message that the schema accepts, whatever else its root demands, and every value
   that a definition accepts, the generated types accept.
   */
  lemma ModuleIsSound(schema: Schema, root: Node, language: Language, identifier: string -> bool, fuel: nat,
        admits: (nat, Json) -> bool, v: Json)
    requires Rendered(schema, language, identifier).Ok? && SaysObject(schema.defs.value)
    requires root.oneOf == schema.oneOf
    ensures var m := Rendered(schema, language, identifier).value;
      && (Accepts(fuel, schema.defs.value, admits, root, v) ==> Inhabits(fuel, m.declarations, m.message, v))
      && forall name | Lookup(schema.defs.value, name).Some?
           && Accepts(fuel, schema.defs.value, admits, Lookup(schema.defs.value, name).value, v) ::
           Inhabits(fuel + 1, m.declarations, Name(name), v)
  {
    hide Emitted, DeclarationOf, Satisfies, Inhabits, Accepts, SaysObject, Lookup, TypeExpressions;
    var defs := schema.defs.value;
    var m := Rendered(schema, language, identifier).value;
    if Accepts(fuel, defs, admits, root, v) {
      MessageFitsOne(fuel, defs, admits, root, v);
      UnionIsSound(fuel, defs, admits, m.declarations, language, identifier, root.oneOf.nodes, v);
    }
    forall name | Lookup(defs, name).Some? && Accepts(fuel, defs, admits, Lookup(defs, name).value, v)
      ensures Inhabits(fuel + 1, m.declarations, Name(name), v)
    {
      NameIsSound(fuel, defs, admits, m.declarations, language, identifier, name, v);
    }
  }

  lemma MessageFitsOne(fuel: nat, defs: seq<(string, Node)>, admits: (nat, Json) -> bool, root: Node, v: Json)
    requires root.oneOf.Listed? && Accepts(fuel, defs, admits, root, v)
    ensures exists i :: 0 <= i < |root.oneOf.nodes| && Accepts(fuel, defs, admits, root.oneOf.nodes[i], v)
  {
    hide HasKind, Declares, Lookup;
  }

  lemma NameIsSound(fuel: nat, defs: seq<(string, Node)>, admits: (nat, Json) -> bool,
        ds: seq<(string, Declaration)>, language: Language, identifier: string -> bool, name: string, v: Json)
    requires SaysObject(defs) && Emitted(defs, ds, language, identifier)
    requires Lookup(defs, name).Some? && Accepts(fuel, defs, admits, Lookup(defs, name).value, v)
    ensures Inhabits(fuel + 1, ds, Name(name), v)
  {
    hide Emitted, DeclarationOf, Satisfies, Lookup, Accepts;
    LookupEmitted(defs, ds, language, identifier, name);
    DeclarationIsSound(fuel, defs, admits, ds, language, identifier, name, Lookup(defs, name).value, v);
  }

  const KINDS := {"null", "boolean", "number", "integer", "string", "array", "object"}

  /** A value of a kind, without members. */
  function Sample(kind: string): Json {
    match kind
    case "boolean" => Bool(true)
    case "number" => Number(0.0)
    case "integer" => Number(0.0)
    case "string" => Text("")
    case "array" => Array([])
    case _ => Null
  }

  /**
   The condition is needed: a definition with properties becomes a class without a look at
   its `type`, and JSON Schema applies `properties` to objects only. For a definition that
   says nothing beside its type, its properties and what they allow, the class accepts
   whatever the definition accepts exactly when the type is object.
   */
  lemma ClassIsSoundIff(fuel: nat, schema: Schema, language: Language, identifier: string -> bool, name: string,
        n: Node)
    requires Rendered(schema, language, identifier).Ok? && SaysObject(schema.defs.value)
    requires n.properties.Declared? && DeclarationOf(name, n, language, identifier).Ok?
    requires n
      == Plain(n.kind).(items := n.items, properties := n.properties, additional := n.additional,
      required := n.required)
    requires n.kind.Some? ==> n.kind.value.One? && n.kind.value.name in KINDS
    ensures (forall v | Accepts(fuel, schema.defs.value, (_, _) => true, n, v) ::
               Satisfies(fuel, Rendered(schema, language, identifier).value.declarations,
                 DeclarationOf(name, n, language, identifier).value, v))
       <==> n.kind == Some(One("object"))
  {
    var defs := schema.defs.value;
    var ds := Rendered(schema, language, identifier).value.declarations;
    if n.kind == Some(One("object")) {
      forall v | Accepts(fuel, defs, (_, _) => true, n, v)
        ensures Satisfies(fuel, ds, DeclarationOf(name, n, language, identifier).value, v)
      {
        DeclarationIsSound(fuel, defs, (_, _) => true, ds, language, identifier, name, n, v);
      }
    } else {
      var v := Sample(if n.kind.Some? then n.kind.value.name else "null");
      assert Accepts(fuel, defs, (_, _) => true, n, v);
      assert !Satisfies(fuel, ds, DeclarationOf(name, n, language, identifier).value, v);
    }
  }
}
