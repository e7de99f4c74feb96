/**
 What the generated SDK types accept, exactly: the values that the keywords accept which the
 generator reads. It reads them in one order, takes the first that it finds, takes an integer for
 any number and `oneOf` for `anyOf`.
 */
module SdkMeaning {
  import opened Common
  import opened JsonValues
  import opened SdkTypes

  /** The last entry of a name. */
  ghost predicate IsEntry<T>(entries: seq<(string, T)>, i: int, name: string) {
    && 0 <= i < |entries| && entries[i].0 == name
    && forall j | i < j < |entries| :: entries[j].0 != name
  }

  /** What the keywords accept that the generator reads, with at most `fuel` references in a row. */
  ghost predicate Reads(fuel: nat, defs: seq<(string, Node)>, n: Node, v: Json)
    decreases fuel, n, 0
  {
    if n.ref.Some? then
      fuel > 0 && exists i | 0 <= i < |defs| ::
        && IsEntry(defs, i, defs[i].0) && n.ref.value == "#/$defs/" + defs[i].0
        && ReadsDefinition(fuel - 1, defs, defs[i].1, v)
    else if n.constant.Some? then v == n.constant.value
    else if n.enumeration.Some? then v in n.enumeration.value
    else if n.anyOf.Listed? then exists i | 0 <= i < |n.anyOf.nodes| :: Reads(fuel, defs, n.anyOf.nodes[i], v)
    else if n.oneOf.Listed? then exists i | 0 <= i < |n.oneOf.nodes| :: Reads(fuel, defs, n.oneOf.nodes[i], v)
    else if n.kind == Some(One("string")) then v.Text?
    else if n.kind == Some(One("boolean")) then v.Bool?
    else if n.kind == Some(One("null")) then v.Null?
    else if n.kind == Some(One("integer")) || n.kind == Some(One("number")) then v.Number?
    else if n.kind == Some(One("array")) then
      v.Array? && n.items.Some? && forall i | 0 <= i < |v.elements| :: Reads(fuel, defs, n.items.value, v.elements[i])
    else v.Object?
  }

  /** A definition with properties holds what it requires of them, and nothing beside them. */
  ghost predicate ReadsDefinition(fuel: nat, defs: seq<(string, Node)>, n: Node, v: Json)
    decreases fuel, n, 1
  {
    if n.properties.Undeclared? then Reads(fuel, defs, n, v)
    else
      && v.Object?
      && (forall i | 0 <= i < |n.properties.entries| && n.required.Some? ::
            n.properties.entries[i].name in n.required.value ==> n.properties.entries[i].name in v.members)
      && (forall i | 0 <= i < |n.properties.entries| && n.properties.entries[i].name in v.members ::
            Reads(fuel, defs, n.properties.entries[i].node, v.members[n.properties.entries[i].name]))
      && forall name | name in v.members ::
           exists i :: 0 <= i < |n.properties.entries| && n.properties.entries[i].name == name
  }

  // ----- names -----

  lemma {:induction false} LookupIsLast<T>(entries: seq<(string, T)>, name: string)
    ensures Lookup(entries, name).None? <==> forall i | 0 <= i < |entries| :: entries[i].0 != name
    ensures Lookup(entries, name).Some? ==>
      exists i :: IsEntry(entries, i, name) && entries[i].1 == Lookup(entries, name).value
  {
    if entries == [] {
    } else if entries[|entries| - 1].0 == name {
      assert IsEntry(entries, |entries| - 1, name);
    } else {
      var shorter := entries[..|entries| - 1];
      LookupIsLast(shorter, name);
      if Lookup(shorter, name).Some? {
        var i :| IsEntry(shorter, i, name) && shorter[i].1 == Lookup(shorter, name).value;
        assert IsEntry(entries, i, name);
      } else {
        assert forall i | 0 <= i < |shorter| :: entries[i] == shorter[i];
      }
    }
  }

  lemma OneEntry<T>(entries: seq<(string, T)>, i: int, j: int, name: string)
    requires IsEntry(entries, i, name) && IsEntry(entries, j, name)
    ensures i == j
  {
  }

  // ----- nodes -----

  /** The type of a node accepts exactly what the generator read in it. */
  lemma {:induction false} TypeMeans(fuel: nat, defs: seq<(string, Node)>, ds: seq<(string, Declaration)>,
        language: Language, identifier: string -> bool, n: Node, v: Json)
    requires Emitted(defs, ds, language, identifier) && TypeExpression(n, language).Ok?
    ensures Inhabits(fuel, ds, TypeExpression(n, language).value, v) <==> Reads(fuel, defs, n, v)
    decreases fuel, n, 1
  {
    hide Emitted, DeclarationOf, Satisfies, Lookup, Literals, Texts, ReadsDefinition, Primitive;
    if n.ref.Some? {
      NameMeans(fuel, defs, ds, language, identifier, n, v);
    } else if n.constant.Some? || n.enumeration.Some? {
      LiteralMeans(fuel, ds, language, if n.constant.Some? then [n.constant.value] else n.enumeration.value, v);
    } else if n.anyOf.Listed? {
      UnionMeans(fuel, defs, ds, language, identifier, n, n.anyOf.nodes, v);
    } else if n.oneOf.Listed? {
      UnionMeans(fuel, defs, ds, language, identifier, n, n.oneOf.nodes, v);
    } else if n.kind == Some(One("array")) {
      ListMeans(fuel, defs, ds, language, identifier, n, v);
    } else {
      KindMeans(fuel, ds, language, n, v);
    }
  }

  lemma {:induction false} ListMeans(fuel: nat, defs: seq<(string, Node)>, ds: seq<(string, Declaration)>,
        language: Language, identifier: string -> bool, n: Node, v: Json)
    requires Emitted(defs, ds, language, identifier) && TypeExpression(n, language).Ok?
    requires n.ref.None? && n.constant.None? && n.enumeration.None? && n.anyOf.Unused? && n.oneOf.Unused?
    requires n.kind == Some(One("array"))
    ensures Inhabits(fuel, ds, TypeExpression(n, language).value, v) <==> Reads(fuel, defs, n, v)
    decreases fuel, n, 0
  {
    hide Emitted, DeclarationOf, Satisfies, Lookup, ReadsDefinition, UnionExpression;
    var item := TypeExpression(n.items.value, language).value;
    assert TypeExpression(n, language).value == ListOf(item);
    if v.Array? {
      forall i | 0 <= i < |v.elements|
        ensures Inhabits(fuel, ds, item, v.elements[i]) <==> Reads(fuel, defs, n.items.value, v.elements[i])
      {
        TypeMeans(fuel, defs, ds, language, identifier, n.items.value, v.elements[i]);
      }
    }
  }

  lemma KindMeans(fuel: nat, ds: seq<(string, Declaration)>, language: Language, n: Node, v: Json)
    requires n.ref.None? && n.constant.None? && n.enumeration.None? && n.anyOf.Unused? && n.oneOf.Unused?
    requires TypeExpression(n, language).Ok? && n.kind != Some(One("array"))
    ensures Inhabits(fuel, ds, TypeExpression(n, language).value, v) <==>
      && (n.kind == Some(One("string")) ==> v.Text?)
      && (n.kind == Some(One("boolean")) ==> v.Bool?)
      && (n.kind == Some(One("null")) ==> v.Null?)
      && (n.kind == Some(One("integer")) || n.kind == Some(One("number")) ==> v.Number?)
      && (n.kind == Some(One("object")) ==> v.Object?)
    ensures n.kind.Some? && n.kind.value.One?
      && n.kind.value.name in ["string", "boolean", "null", "integer", "number", "object"]
  {
    if v.Number? {
      assert Inhabits(fuel, ds, [IntType, FloatType][1], v);
    }
  }

  lemma LiteralMeans(fuel: nat, ds: seq<(string, Declaration)>, language: Language, values: seq<Json>, v: Json)
    requires forall w | w in values :: w.Text?
    ensures Inhabits(fuel, ds, if language == Python then LiteralOf(Texts(values))
      else Union(Literals(Texts(values))), v)
       <==> v in values
  {
    LiteralsAgree(fuel, ds, ds, Texts(values), v);
    if v.Text? && v.text in Texts(values) {
      var i :| 0 <= i < |values| && Texts(values)[i] == v.text;
      assert values[i] == v;
    }
    if i :| 0 <= i < |values| && values[i] == v {
      assert Texts(values)[i] == v.text;
    }
  }

  lemma {:induction false} UnionMeans(fuel: nat, defs: seq<(string, Node)>, ds: seq<(string, Declaration)>,
        language: Language, identifier: string -> bool, n: Node, ns: seq<Node>, v: Json)
    requires Emitted(defs, ds, language, identifier) && UnionExpression(ns, language).Ok?
    requires n.anyOf == Listed(ns) || n.oneOf == Listed(ns)
    ensures Inhabits(fuel, ds, UnionExpression(ns, language).value, v) <==>
      exists i | 0 <= i < |ns| :: Reads(fuel, defs, ns[i], v)
    decreases fuel, n, 0
  {
    hide Emitted, TypeExpression, Satisfies, Lookup, Reads;
    var t := UnionExpression(ns, language).value;
    forall i | 0 <= i < |ns|
      ensures Inhabits(fuel, ds, t.members[i], v) <==> Reads(fuel, defs, ns[i], v)
    {
      TypeMeans(fuel, defs, ds, language, identifier, ns[i], v);
    }
  }

  lemma {:induction false} NameMeans(fuel: nat, defs: seq<(string, Node)>, ds: seq<(string, Declaration)>,
        language: Language, identifier: string -> bool, n: Node, v: Json)
    requires Emitted(defs, ds, language, identifier) && n.ref.Some? && TypeExpression(n, language).Ok?
    ensures Inhabits(fuel, ds, TypeExpression(n, language).value, v) <==> Reads(fuel, defs, n, v)
    decreases fuel, n, 0
  {
    hide Emitted, DeclarationOf, Satisfies, Lookup, ReadsDefinition, Reads, IsEntry;
    var name := n.ref.value[|REF_PREFIX|..];
    ReadsByName(fuel, defs, n, v, name);
    if fuel > 0 {
      NamedMeans(defs, ds, language, identifier, fuel - 1, name, v);
    }
  }

  lemma ReadsByName(fuel: nat, defs: seq<(string, Node)>, n: Node, v: Json, name: string)
    requires n.ref.Some? && REF_PREFIX <= n.ref.value && name == n.ref.value[|REF_PREFIX|..]
    ensures Reads(fuel, defs, n, v) <==>
      fuel > 0 && exists i :: IsEntry(defs, i, name) && ReadsDefinition(fuel - 1, defs, defs[i].1, v)
  {
    hide ReadsDefinition;
    assert n.ref.value == "#/$defs/" + name;
    forall j | 0 <= j < |defs|
      ensures n.ref.value == "#/$defs/" + defs[j].0 <==> defs[j].0 == name
    {
      assert ("#/$defs/" + defs[j].0)[8..] == defs[j].0;
    }
  }

  lemma SameName(s: string, t: string)
    requires "#/$defs/" + s == "#/$defs/" + t
    ensures s == t
  {
    assert ("#/$defs/" + s)[8..] == s && ("#/$defs/" + t)[8..] == t;
  }

  lemma {:induction false} DeclarationMeans(fuel: nat, defs: seq<(string, Node)>, ds: seq<(string, Declaration)>,
        language: Language, identifier: string -> bool, name: string, n: Node, v: Json)
    requires Emitted(defs, ds, language, identifier) && DeclarationOf(name, n, language, identifier).Ok?
    ensures Satisfies(fuel, ds, DeclarationOf(name, n, language, identifier).value, v) <==>
      ReadsDefinition(fuel, defs, n, v)
    decreases fuel, n, 2
  {
    hide Emitted, TypeExpression, Lookup;
    if n.properties.Undeclared? {
      TypeMeans(fuel, defs, ds, language, identifier, n, v);
    } else if v.Object? {
      var properties := n.properties.entries;
      var fields := FieldExpressions(n, properties, language, identifier).value;
      forall i | 0 <= i < |properties| && properties[i].name in v.members
        ensures Inhabits(fuel, ds, fields[i].hint, v.members[fields[i].name]) <==>
          Reads(fuel, defs, properties[i].node, v.members[properties[i].name])
      {
        TypeMeans(fuel, defs, ds, language, identifier, properties[i].node, v.members[properties[i].name]);
      }
      assert forall i | 0 <= i < |properties| :: fields[i].name == properties[i].name;
    }
  }

  // ----- modules -----

  /** The message and every name of a generated module accept exactly what the generator read in the schema. */
  lemma ModuleMeans(schema: Schema, language: Language, identifier: string -> bool, fuel: nat, v: Json)
    requires Rendered(schema, language, identifier).Ok?
    ensures var m, defs := Rendered(schema, language, identifier).value, schema.defs.value;
      && (Inhabits(fuel, m.declarations, m.message, v) <==>
            exists i | 0 <= i < |schema.oneOf.nodes| :: Reads(fuel, defs, schema.oneOf.nodes[i], v))
      && forall name :: Inhabits(fuel + 1, m.declarations, Name(name), v) <==>
           exists i :: IsEntry(defs, i, name) && ReadsDefinition(fuel, defs, defs[i].1, v)
  {
    hide Emitted, DeclarationOf, Satisfies, Lookup, TypeExpressions, ReadsDefinition;
    var m, defs := Rendered(schema, language, identifier).value, schema.defs.value;
    var root := Plain(None).(oneOf := schema.oneOf);
    UnionMeans(fuel, defs, m.declarations, language, identifier, root, schema.oneOf.nodes, v);
    forall name
      ensures Inhabits(fuel + 1, m.declarations, Name(name), v) <==>
        exists i :: IsEntry(defs, i, name) && ReadsDefinition(fuel, defs, defs[i].1, v)
    {
      NamedMeans(defs, m.declarations, language, identifier, fuel, name, v);
    }
  }

  lemma {:induction false} NamedMeans(defs: seq<(string, Node)>, ds: seq<(string, Declaration)>, language: Language,
        identifier: string -> bool, fuel: nat, name: string, v: Json)
    requires Emitted(defs, ds, language, identifier)
    ensures Inhabits(fuel + 1, ds, Name(name), v) <==>
      exists i :: IsEntry(defs, i, name) && ReadsDefinition(fuel, defs, defs[i].1, v)
    decreases fuel
  {
    hide Emitted, DeclarationOf, Satisfies, Lookup, ReadsDefinition;
    LookupEmitted(defs, ds, language, identifier, name);
    LookupIsLast(defs, name);
    assert Inhabits(fuel + 1, ds, Name(name), v) <==>
      Lookup(ds, name).Some? && Satisfies(fuel, ds, Lookup(ds, name).value, v);
    if Lookup(defs, name).Some? {
      var i :| IsEntry(defs, i, name) && defs[i].1 == Lookup(defs, name).value;
      DeclarationMeans(fuel, defs, ds, language, identifier, name, defs[i].1, v);
      forall j | IsEntry(defs, j, name)
        ensures j == i
      {
        OneEntry(defs, i, j, name);
      }
    }
  }

  /** A class refuses every value that misses one of its required properties. */
  lemma RequiredIsHeld(schema: Schema, language: Language, identifier: string -> bool, fuel: nat, i: nat,
        property: Property, v: Json)
    requires Rendered(schema, language, identifier).Ok?
    requires i < |schema.defs.value| && IsEntry(schema.defs.value, i, schema.defs.value[i].0)
    requires var n := schema.defs.value[i].1;
      && n.properties.Declared? && property in n.properties.entries
      && n.required.Some? && property.name in n.required.value
    requires Inhabits(fuel, Rendered(schema, language, identifier).value.declarations,
      Name(schema.defs.value[i].0), v)
    ensures v.Object? && property.name in v.members
  {
    hide Emitted, Declarations, UnionExpression, Lookup, Satisfies, Reads;
    var defs := schema.defs.value;
    assert fuel > 0;
    ModuleMeans(schema, language, identifier, fuel - 1, v);
    var j :| IsEntry(defs, j, defs[i].0) && ReadsDefinition(fuel - 1, defs, defs[j].1, v);
    OneEntry(defs, i, j, defs[i].0);
    var k :| 0 <= k < |defs[i].1.properties.entries| && defs[i].1.properties.entries[k] == property;
  }

  // ----- schemas that say no more than is read -----

  /** The node has one of the keywords that the generator reads, and no integer or `oneOf`, which it widens. */
  ghost predicate SaysNoMore(n: Node)
    decreases n
  {
    var blank := Node(None, None, None, Unused, Unused, None, None, Undeclared, Unsaid, None, n.mark);
    || (n.ref.Some? && n == blank.(ref := n.ref))
    || (n.constant.Some? && n == blank.(constant := n.constant))
    || (n.enumeration.Some? && n == blank.(enumeration := n.enumeration))
    || (n.anyOf.Listed? && n == blank.(anyOf := n.anyOf)
        && forall i | 0 <= i < |n.anyOf.nodes| :: SaysNoMore(n.anyOf.nodes[i]))
    || (n == blank.(kind := n.kind)
        && n.kind in {Some(One("string")), Some(One("number")), Some(One("boolean")), Some(One("null"))})
    || (n.items.Some? && n == blank.(kind := Some(One("array")), items := n.items) && SaysNoMore(n.items.value))
    || n == blank.(kind := Some(One("object")), additional := Flag(true))
  }

  /** A definition that says no more: such a node, or a closed object that declares what it requires. */
  ghost predicate DefinesNoMore(n: Node) {
    || SaysNoMore(n)
    || (&& n.properties.Declared?
        && n == Node(None, None, None, Unused, Unused, Some(One("object")), None, n.properties, Flag(false), n.required,
             n.mark)
        && (forall i | 0 <= i < |n.properties.entries| :: SaysNoMore(n.properties.entries[i].node))
        && (n.required.Some? ==> forall name | name in n.required.value :: exists i ::
              0 <= i < |n.properties.entries| && n.properties.entries[i].name == name))
  }

  ghost predicate DefinitionsSayNoMore(defs: seq<(string, Node)>) {
    forall i | 0 <= i < |defs| :: DefinesNoMore(defs[i].1)
  }

  /** For such a schema the generator reads all there is. */
  lemma {:induction false} ReadsAll(fuel: nat, defs: seq<(string, Node)>, n: Node, v: Json)
    requires DefinitionsSayNoMore(defs) && SaysNoMore(n)
    ensures Reads(fuel, defs, n, v) <==> Accepts(fuel, defs, (_, _) => true, n, v)
    decreases fuel, n, 1
  {
    hide DefinitionsSayNoMore, ReadsDefinition, Lookup;
    if n.ref.Some? {
      ReferenceReadsAll(fuel, defs, n, v);
    } else if n.anyOf.Listed? {
      forall i | 0 <= i < |n.anyOf.nodes|
        ensures Agrees(fuel, defs, n.anyOf.nodes[i], v)
      {
        ReadsAll(fuel, defs, n.anyOf.nodes[i], v);
      }
      AnyReadsAll(fuel, defs, n, v);
    } else if n.items.Some? {
      forall i | v.Array? && 0 <= i < |v.elements|
        ensures Agrees(fuel, defs, n.items.value, v.elements[i])
      {
        ReadsAll(fuel, defs, n.items.value, v.elements[i]);
      }
      ItemsReadAll(fuel, defs, n, v);
    } else {
      LeafReadsAll(fuel, defs, n, v);
    }
  }

  lemma AnyReadsAll(fuel: nat, defs: seq<(string, Node)>, n: Node, v: Json)
    requires SaysNoMore(n) && n.anyOf.Listed?
    requires forall i | 0 <= i < |n.anyOf.nodes| :: Agrees(fuel, defs, n.anyOf.nodes[i], v)
    ensures Reads(fuel, defs, n, v) <==> Accepts(fuel, defs, (_, _) => true, n, v)
  {
    hide Lookup, Declares, HasKind, ReadsDefinition;
  }

  lemma ItemsReadAll(fuel: nat, defs: seq<(string, Node)>, n: Node, v: Json)
    requires SaysNoMore(n) && n.items.Some?
    requires v.Array? ==> forall i | 0 <= i < |v.elements| :: Agrees(fuel, defs, n.items.value, v.elements[i])
    ensures Reads(fuel, defs, n, v) <==> Accepts(fuel, defs, (_, _) => true, n, v)
  {
    hide Lookup, Declares, ReadsDefinition;
  }

  lemma LeafReadsAll(fuel: nat, defs: seq<(string, Node)>, n: Node, v: Json)
    requires SaysNoMore(n) && n.ref.None? && n.anyOf.Unused? && n.items.None?
    ensures Reads(fuel, defs, n, v) <==> Accepts(fuel, defs, (_, _) => true, n, v)
  {
    hide Lookup, ReadsDefinition;
  }

  lemma {:induction false} ReferenceReadsAll(fuel: nat, defs: seq<(string, Node)>, n: Node, v: Json)
    requires DefinitionsSayNoMore(defs) && SaysNoMore(n) && n.ref.Some?
    ensures Reads(fuel, defs, n, v) <==> Accepts(fuel, defs, (_, _) => true, n, v)
    decreases fuel, n, 0
  {
    hide DefinitionsSayNoMore, ReadsDefinition, Lookup, Accepts, Reads, SaysNoMore;
    var name := if REF_PREFIX <= n.ref.value then n.ref.value[|REF_PREFIX|..] else "";
    ReferenceAccepts(fuel, defs, n, v);
    LookupIsLast(defs, name);
    if i :| IsEntry(defs, i, name) && Lookup(defs, name) == Some(defs[i].1) {
      ReferenceReads(fuel, defs, n, v, name, i);
      if fuel > 0 {
        DefinitionAt(defs, i);
        DefinitionReadsAll(fuel - 1, defs, defs[i].1, v);
      }
    } else {
      NothingToRead(fuel, defs, n, v, name);
    }
  }

  lemma ReferenceAccepts(fuel: nat, defs: seq<(string, Node)>, n: Node, v: Json)
    requires SaysNoMore(n) && n.ref.Some?
    ensures Accepts(fuel, defs, (_, _) => true, n, v) <==>
      && REF_PREFIX <= n.ref.value && fuel > 0
      && Lookup(defs, n.ref.value[|REF_PREFIX|..]).Some?
      && Accepts(fuel - 1, defs, (_, _) => true, Lookup(defs, n.ref.value[|REF_PREFIX|..]).value, v)
  {
    hide Lookup;
  }

  lemma ReferenceReads(fuel: nat, defs: seq<(string, Node)>, n: Node, v: Json, name: string, i: int)
    requires n.ref.Some? && IsEntry(defs, i, name)
    requires name == if REF_PREFIX <= n.ref.value then n.ref.value[|REF_PREFIX|..] else ""
    ensures Reads(fuel, defs, n, v) <==>
      REF_PREFIX <= n.ref.value && fuel > 0 && ReadsDefinition(fuel - 1, defs, defs[i].1, v)
  {
    hide ReadsDefinition;
    if REF_PREFIX <= n.ref.value {
      assert n.ref.value == "#/$defs/" + name;
      forall j | 0 <= j < |defs| && IsEntry(defs, j, defs[j].0) && n.ref.value == "#/$defs/" + defs[j].0
        ensures j == i
      {
        SameName(name, defs[j].0);
        OneEntry(defs, i, j, name);
      }
    }
  }

  lemma NothingToRead(fuel: nat, defs: seq<(string, Node)>, n: Node, v: Json, name: string)
    requires n.ref.Some? && forall i | 0 <= i < |defs| :: defs[i].0 != name
    requires name == if REF_PREFIX <= n.ref.value then n.ref.value[|REF_PREFIX|..] else ""
    ensures !Reads(fuel, defs, n, v)
  {
    hide ReadsDefinition;
    forall j | 0 <= j < |defs|
      ensures n.ref.value != "#/$defs/" + defs[j].0
    {
      assert ("#/$defs/" + defs[j].0)[8..] == defs[j].0 && REF_PREFIX <= "#/$defs/" + defs[j].0;
    }
  }

  lemma DefinitionAt(defs: seq<(string, Node)>, i: int)
    requires DefinitionsSayNoMore(defs) && 0 <= i < |defs|
    ensures DefinesNoMore(defs[i].1)
  {
  }

  lemma {:induction false} DefinitionReadsAll(fuel: nat, defs: seq<(string, Node)>, n: Node, v: Json)
    requires DefinitionsSayNoMore(defs) && DefinesNoMore(n)
    ensures ReadsDefinition(fuel, defs, n, v) <==> Accepts(fuel, defs, (_, _) => true, n, v)
    decreases fuel, n, 2
  {
    hide DefinitionsSayNoMore, Lookup, Reads, SaysNoMore;
    if n.properties.Undeclared? {
      ReadsAll(fuel, defs, n, v);
    } else {
      PropertiesSayNoMore(n);
      forall i | v.Object? && 0 <= i < |n.properties.entries| && n.properties.entries[i].name in v.members
        ensures Agrees(fuel, defs, n.properties.entries[i].node, v.members[n.properties.entries[i].name])
      {
        ReadsAll(fuel, defs, n.properties.entries[i].node, v.members[n.properties.entries[i].name]);
      }
      ObjectReadsAll(fuel, defs, n, v);
    }
  }

  ghost predicate Agrees(fuel: nat, defs: seq<(string, Node)>, n: Node, v: Json) {
    Reads(fuel, defs, n, v) <==> Accepts(fuel, defs, (_, _) => true, n, v)
  }

  lemma PropertiesSayNoMore(n: Node)
    requires DefinesNoMore(n) && n.properties.Declared?
    ensures n == Node(None, None, None, Unused, Unused, Some(One("object")), None, n.properties, Flag(false),
      n.required, n.mark)
    ensures forall i | 0 <= i < |n.properties.entries| :: SaysNoMore(n.properties.entries[i].node)
    ensures n.required.Some? ==> forall name | name in n.required.value :: Declares(n, name)
  {
  }

  lemma ObjectReadsAll(fuel: nat, defs: seq<(string, Node)>, n: Node, v: Json)
    requires DefinesNoMore(n) && n.properties.Declared?
    requires v.Object? ==> forall i | 0 <= i < |n.properties.entries| && n.properties.entries[i].name in v.members ::
      Agrees(fuel, defs, n.properties.entries[i].node, v.members[n.properties.entries[i].name])
    ensures ReadsDefinition(fuel, defs, n, v) <==> Accepts(fuel, defs, (_, _) => true, n, v)
  {
    hide DefinesNoMore, Reads, Lookup, Accepts;
    PropertiesSayNoMore(n);
    ObjectAccepts(fuel, defs, n, v);
    if v.Object? {
      RequiredAlike(n, v);
    }
  }

  lemma ObjectAccepts(fuel: nat, defs: seq<(string, Node)>, n: Node, v: Json)
    requires n.properties.Declared?
    requires n == Node(None, None, None, Unused, Unused, Some(One("object")), None, n.properties, Flag(false),
      n.required, n.mark)
    ensures Accepts(fuel, defs, (_, _) => true, n, v) <==>
      v.Object? && PropertiesFit(fuel, defs, n, v)
      && (n.required.Some? ==> forall name | name in n.required.value :: name in v.members)
      && forall name | name in v.members ::
           exists i :: 0 <= i < |n.properties.entries| && n.properties.entries[i].name == name
  {
    hide Lookup, Accepts, PropertiesFit;
    ClosedAccepts(fuel, defs, n, v);
    if v.Object? {
      DeclaresAll(n, v.members.Keys);
    }
  }

  ghost predicate PropertiesFit(fuel: nat, defs: seq<(string, Node)>, n: Node, v: Json)
    requires n.properties.Declared? && v.Object?
  {
    forall i | 0 <= i < |n.properties.entries| && n.properties.entries[i].name in v.members ::
      Accepts(fuel, defs, (_, _) => true, n.properties.entries[i].node, v.members[n.properties.entries[i].name])
  }

  lemma DeclaresAll(n: Node, names: set<string>)
    requires n.properties.Declared?
    ensures (forall name | name in names :: Declares(n, name)) <==> forall name | name in names ::
      exists i :: 0 <= i < |n.properties.entries| && n.properties.entries[i].name == name
  {
  }

  lemma ClosedAccepts(fuel: nat, defs: seq<(string, Node)>, n: Node, v: Json)
    requires n.properties.Declared?
    requires n == Node(None, None, None, Unused, Unused, Some(One("object")), None, n.properties, Flag(false),
      n.required, n.mark)
    ensures Accepts(fuel, defs, (_, _) => true, n, v) <==>
      v.Object? && PropertiesFit(fuel, defs, n, v)
      && (n.required.Some? ==> forall name | name in n.required.value :: name in v.members)
      && forall name | name in v.members.Keys :: Declares(n, name)
  {
    hide Lookup, Declares;
    assert HasKind(v, "object") <==> v.Object?;
  }

  lemma RequiredAlike(n: Node, v: Json)
    requires v.Object? && n.properties.Declared?
    requires n.required.Some? ==> forall name | name in n.required.value :: Declares(n, name)
    ensures (n.required.Some? ==> forall name | name in n.required.value :: name in v.members) <==>
      forall i | 0 <= i < |n.properties.entries| && n.required.Some? ::
        n.properties.entries[i].name in n.required.value ==> n.properties.entries[i].name in v.members
  {
  }

  /** So the type of a node is exact: it accepts what the node accepts and refuses what it refuses. */
  lemma TypeIsExact(fuel: nat, defs: seq<(string, Node)>, ds: seq<(string, Declaration)>, language: Language,
        identifier: string -> bool, n: Node, v: Json)
    requires Emitted(defs, ds, language, identifier) && TypeExpression(n, language).Ok?
    requires DefinitionsSayNoMore(defs) && SaysNoMore(n)
    ensures Inhabits(fuel, ds, TypeExpression(n, language).value, v) <==> Accepts(fuel, defs, (_, _) => true, n, v)
  {
    hide *;
    TypeMeans(fuel, defs, ds, language, identifier, n, v);
    ReadsAll(fuel, defs, n, v);
  }

  // ----- the two languages -----

  /** The type is written in the forms of its language. */
  ghost predicate WrittenIn(t: Type, language: Language) {
    match t
    case Union(members) => forall i | 0 <= i < |members| :: WrittenIn(members[i], language)
    case ListOf(item) => WrittenIn(item, language)
    case LiteralOf(_) => language == Python
    case IntType => language == Python
    case FloatType => language == Python
    case LiteralText(_) => language == TypeScript
    case NumberType => language == TypeScript
    case _ => true
  }

  lemma {:induction false} TypeIsWrittenIn(n: Node, language: Language)
    requires TypeExpression(n, language).Ok?
    ensures WrittenIn(TypeExpression(n, language).value, language)
    decreases n
  {
    if n.ref.Some? || n.constant.Some? || n.enumeration.Some? {
    } else if n.anyOf.Listed? {
      forall i | 0 <= i < |n.anyOf.nodes|
        ensures WrittenIn(TypeExpression(n.anyOf.nodes[i], language).value, language)
      {
        TypeIsWrittenIn(n.anyOf.nodes[i], language);
      }
    } else if n.oneOf.Listed? {
      forall i | 0 <= i < |n.oneOf.nodes|
        ensures WrittenIn(TypeExpression(n.oneOf.nodes[i], language).value, language)
      {
        TypeIsWrittenIn(n.oneOf.nodes[i], language);
      }
    } else if n.kind == Some(One("array")) {
      TypeIsWrittenIn(n.items.value, language);
    }
  }

  // ----- when the generator finishes -----

  /** The generator can write a type for the node. */
  ghost predicate Typable(n: Node)
    decreases n
  {
    if n.ref.Some? then "#/$defs/" <= n.ref.value
    else if n.constant.Some? then n.constant.value.Text?
    else if n.enumeration.Some? then forall i | 0 <= i < |n.enumeration.value| :: n.enumeration.value[i].Text?
    else if n.anyOf.Listed? then forall i | 0 <= i < |n.anyOf.nodes| :: Typable(n.anyOf.nodes[i])
    else if n.oneOf.Listed? then forall i | 0 <= i < |n.oneOf.nodes| :: Typable(n.oneOf.nodes[i])
    else if n.kind == Some(One("array")) then n.items.Some? && Typable(n.items.value)
    else if n.kind == Some(One("object")) then
      n.additional == Flag(true) && (n.properties.Declared? ==> |n.properties.entries| == 0)
    else
      n.kind in {Some(One("string")), Some(One("integer")), Some(One("number")), Some(One("boolean")),
        Some(One("null"))}
  }

  lemma {:induction false} TypableIff(n: Node, language: Language)
    ensures TypeExpression(n, language).Ok? <==> Typable(n)
    decreases n
  {
    if n.ref.Some? || n.constant.Some? {
    } else if n.enumeration.Some? {
    } else if n.anyOf.Listed? {
      TypablesIff(n.anyOf.nodes, language);
    } else if n.oneOf.Listed? {
      TypablesIff(n.oneOf.nodes, language);
    } else if n.items.Some? {
      TypableIff(n.items.value, language);
    }
  }

  lemma {:induction false} TypablesIff(ns: seq<Node>, language: Language)
    ensures TypeExpressions(ns, language).Ok? <==> forall i | 0 <= i < |ns| :: Typable(ns[i])
    decreases ns
  {
    if ns != [] {
      TypableIff(ns[0], language);
      TypablesIff(ns[1..], language);
      assert forall i | 0 < i < |ns| :: ns[i] == ns[1..][i - 1];
    }
  }

  /** The generator can declare the definition. */
  ghost predicate Declarable(name: string, n: Node, identifier: string -> bool) {
    && identifier(name)
    && (n.properties.Undeclared? ==> Typable(n))
    && (n.properties.Declared? ==>
          && n.additional == Flag(false)
          && forall i | 0 <= i < |n.properties.entries| ::
               identifier(n.properties.entries[i].name) && Typable(n.properties.entries[i].node))
  }

  lemma {:induction false} FieldsIff(n: Node, properties: seq<Property>, language: Language,
        identifier: string -> bool)
    ensures FieldExpressions(n, properties, language, identifier).Ok? <==>
      forall i | 0 <= i < |properties| :: identifier(properties[i].name) && Typable(properties[i].node)
  {
    hide Typable, TypeExpression, IsRequired;
    if properties != [] {
      var shorter := properties[..|properties| - 1];
      FieldsIff(n, shorter, language, identifier);
      TypableIff(properties[|properties| - 1].node, language);
      assert forall i | 0 <= i < |shorter| :: shorter[i] == properties[i];
    }
  }

  lemma {:induction false} DeclarationsIff(defs: seq<(string, Node)>, language: Language, identifier: string -> bool)
    ensures Declarations(defs, language, identifier).Ok? <==>
      forall i | 0 <= i < |defs| :: Declarable(defs[i].0, defs[i].1, identifier)
  {
    hide Typable, TypeExpression, IsRequired, FieldExpressions;
    if defs != [] {
      var shorter := defs[..|defs| - 1];
      var (name, n) := defs[|defs| - 1];
      DeclarationsIff(shorter, language, identifier);
      TypableIff(n, language);
      if n.properties.Declared? {
        FieldsIff(n, n.properties.entries, language, identifier);
      }
      assert forall i | 0 <= i < |shorter| :: shorter[i] == defs[i];
    }
  }

  /** A module is written exactly for a schema all of whose definitions and messages can be written. */
  lemma RenderedIff(schema: Schema, language: Language, identifier: string -> bool)
    ensures Rendered(schema, language, identifier).Ok? <==>
      && schema.defs.Some? && schema.oneOf.Listed?
      && (forall i | 0 <= i < |schema.defs.value| ::
            Declarable(schema.defs.value[i].0, schema.defs.value[i].1, identifier))
      && forall i | 0 <= i < |schema.oneOf.nodes| :: Typable(schema.oneOf.nodes[i])
  {
    hide Typable, Declarable, Declarations, TypeExpressions;
    if schema.defs.Some? {
      DeclarationsIff(schema.defs.value, language, identifier);
    }
    if schema.oneOf.Listed? {
      TypablesIff(schema.oneOf.nodes, language);
    }
  }
}
