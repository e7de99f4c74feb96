/**
 The strict form of a JSON schema: every visited object node is closed and requires all of
 its properties, and defaults are dropped. The rewrite works in place on nested
 dictionaries; here it is proved against a function on schema trees.
 */
module StrictSchema {
  import opened Common
  import opened JsonValues

  /** Where a subschema sits in its node. */
  datatype Slot = Property(name: string) | Items | Definition(name: string) | AnyOf | OneOf | AllOf

  datatype Child = Child(slot: Slot, schema: Schema)

  datatype Additional = Unsaid | Flag(allowed: bool) | Shape(shape: Schema)

  /** A schema tree. `mark` stands for the keywords that the rewrite neither reads nor enters. */
  datatype Schema =
    | Truth(allows: bool)
    | Node(ref: Option<string>, kind: Option<string>, default: Option<Json>, children: seq<Child>,
           additional: Additional, required: Option<seq<string>>, mark: nat)

  const OBJECT := Some("object")

  /** A schema without a list of required names requires none. */
  function Names(required: Option<seq<string>>): seq<string> {
    if required.Some? then required.value else []
  }

  /** The names of the properties among these slots, in order. */
  function PropertyNames(slots: seq<Slot>): (names: seq<string>)
    ensures forall name :: name in names <==> Property(name) in slots
  {
    if slots == [] then []
    else
      var before := PropertyNames(slots[..|slots| - 1]);
      var last := slots[|slots| - 1];
      if last.Property? then before + [last.name] else before
  }

  function SlotsOf(children: seq<Child>): (slots: seq<Slot>)
    ensures |slots| == |children| && forall i | 0 <= i < |slots| :: slots[i] == children[i].slot
  {
    seq(|children|, i requires 0 <= i < |children| => children[i].slot)
  }

  /** The rewrite enters a property only when its node is an object. */
  predicate Enters(kind: Option<string>, slot: Slot) {
    slot.Property? ==> kind == OBJECT
  }

  function Strict(s: Schema): Schema
    decreases s
  {
    match s
    case Truth(_) => s
    case Node(_, kind, _, children, _, _, _) =>
      var visited := s.(default := None, children := StrictChildren(kind, children));
      if kind == OBJECT then visited.(additional := Flag(false), required := Some(PropertyNames(SlotsOf(children))))
      else visited
  }

  function StrictChild(kind: Option<string>, child: Child): Child
    decreases child
  {
    if Enters(kind, child.slot) then Child(child.slot, Strict(child.schema)) else child
  }

  function StrictChildren(kind: Option<string>, children: seq<Child>): (r: seq<Child>)
    ensures |r| == |children|
    ensures forall i | 0 <= i < |r| :: r[i] == StrictChild(kind, children[i])
    decreases children
  {
    if children == [] then [] else [StrictChild(kind, children[0])] + StrictChildren(kind, children[1..])
  }

  // ----- the rewrite in place -----

  datatype Link = Fixed(allows: bool) | To(node: SchemaNode)

  function LinkSlots(links: seq<(Slot, Link)>): (slots: seq<Slot>)
    ensures |slots| == |links| && forall i | 0 <= i < |slots| :: slots[i] == links[i].0
  {
    seq(|links|, i requires 0 <= i < |links| => links[i].0)
  }

  /**
   A nested dictionary of a schema. `Tree` is the schema it stands for; `Repr` holds it and
   the dictionaries below it, `Parts` those below each link.
   */
  class SchemaNode {
    var ref: Option<string>
    var kind: Option<string>
    var default: Option<Json>
    var children: seq<(Slot, Link)>
    var additional: Additional
    var required: Option<seq<string>>
    var mark: nat
    ghost var Tree: Schema
    ghost var Repr: set<object>
    ghost var Parts: seq<set<object>>

    ghost predicate Valid()
      reads this, Repr
      decreases Repr, 0
    {
      && this in Repr
      && Tree.Node?
      && Tree == Node(ref, kind, default, Tree.children, additional, required, mark)
      && |Tree.children| == |children| == |Parts|
      && Apart(Parts, Repr - {this})
      && forall i | 0 <= i < |children| ::
           Tree.children[i].slot == children[i].0 && StandsFor(children[i].1, Tree.children[i].schema, Parts[i])
    }

    /** visit. */
    method Visit()
      requires Valid()
      modifies Repr
      ensures Valid() && Repr == old(Repr) && Parts == old(Parts) && children == old(children)
      ensures Tree == Strict(old(Tree))
      decreases Tree, 2
    {
      default := None;
      if kind == OBJECT {
        additional := Flag(false);
        required := Some(PropertyNames(LinkSlots(children)));
      }
      VisitChildren(kind, children, Tree.children, Parts, Repr - {this});
      assert SlotsOf(Tree.children) == LinkSlots(children);
      Tree := Strict(Tree);
    }
  }

  /** No dictionary is below two links. */
  ghost predicate Apart(parts: seq<set<object>>, whole: set<object>) {
    && (forall i | 0 <= i < |parts| :: parts[i] <= whole)
    && forall i, j | 0 <= i < j < |parts| :: parts[i] !! parts[j]
  }

  /** What a link leads to stands for this subschema. */
  ghost predicate StandsFor(link: Link, s: Schema, part: set<object>)
    reads part
    decreases part, 1
  {
    match link
    case Fixed(allows) => s == Truth(allows)
    case To(node) => node in part && node.Repr == part && node.Valid() && node.Tree == s
  }

  method VisitChildren(kind: Option<string>, links: seq<(Slot, Link)>, ghost children: seq<Child>,
        ghost parts: seq<set<object>>, ghost whole: set<object>)
    requires |children| == |links| == |parts| && Apart(parts, whole)
    requires forall i | 0 <= i < |links| ::
      children[i].slot == links[i].0 && StandsFor(links[i].1, children[i].schema, parts[i])
    modifies whole
    ensures forall i | 0 <= i < |links| :: StandsFor(links[i].1, StrictChild(kind, children[i]).schema, parts[i])
    decreases children
  {
    for i := 0 to |links|
      invariant forall k | 0 <= k < i :: StandsFor(links[k].1, StrictChild(kind, children[k]).schema, parts[k])
      invariant forall k | i <= k < |links| :: StandsFor(links[k].1, children[k].schema, parts[k])
    {
      VisitChild(kind, links[i].0, links[i].1, children[i], parts[i]);
    }
  }

  method VisitChild(kind: Option<string>, slot: Slot, link: Link, ghost child: Child, ghost part: set<object>)
    requires child.slot == slot && StandsFor(link, child.schema, part)
    modifies part
    ensures StandsFor(link, StrictChild(kind, child).schema, part)
    decreases child
  {
    if link.To? && Enters(kind, slot) {
      link.node.Visit();
    }
  }

  /**
   _strict_json_schema. Only the outermost dictionary is copied, so the nested dictionaries
   of the argument are rewritten too: it keeps its own keys and loses those below.
   */
  method StrictJsonSchema(schema: SchemaNode) returns (cloned: SchemaNode)
    requires schema.Valid()
    modifies schema.Repr
    ensures fresh(cloned) && cloned.Valid() && cloned.Tree == Strict(old(schema.Tree))
    ensures schema.Valid()
    ensures schema.Tree == old(schema.Tree).(children := StrictChildren(schema.kind, old(schema.Tree).children))
  {
    hide StrictChildren, StrictChild, SlotsOf, PropertyNames, Enters, Apart;
    cloned := ShallowCopy(schema);
    cloned.Visit();
    schema.Tree := schema.Tree.(children := cloned.Tree.children);
  }

  /** dict(schema): a new dictionary with the same keys, which shares everything below. */
  method ShallowCopy(schema: SchemaNode) returns (cloned: SchemaNode)
    requires schema.Valid()
    ensures fresh(cloned) && cloned.Valid() && cloned.Tree == schema.Tree
    ensures cloned.Repr == schema.Repr - {schema} + {cloned}
    ensures cloned.children == schema.children && cloned.Parts == schema.Parts
  {
    cloned := new SchemaNode;
    cloned.ref, cloned.kind, cloned.default, cloned.children :=
      schema.ref, schema.kind, schema.default, schema.children;
    cloned.additional, cloned.required, cloned.mark := schema.additional, schema.required, schema.mark;
    cloned.Tree, cloned.Parts, cloned.Repr := schema.Tree, schema.Parts, schema.Repr - {schema} + {cloned};
    assert cloned.Repr - {cloned} == schema.Repr - {schema};
  }

  // ----- where the rewrite ends -----

  /**
   Every node that the rewrite enters is free of defaults, and an object node is closed and
   requires all its properties.
   */
  ghost predicate Settled(s: Schema)
    decreases s
  {
    s.Node? ==>
      && s.default.None?
      && (s.kind == OBJECT ==> s.additional == Flag(false) && s.required == Some(PropertyNames(SlotsOf(s.children))))
      && forall i | 0 <= i < |s.children| && Enters(s.kind, s.children[i].slot) :: Settled(s.children[i].schema)
  }

  lemma {:induction false} StrictSettles(s: Schema)
    ensures Settled(Strict(s))
    decreases s
  {
    if s.Node? {
      assert SlotsOf(Strict(s).children) == SlotsOf(s.children);
      forall i | 0 <= i < |s.children| && Enters(s.kind, s.children[i].slot)
        ensures Settled(Strict(s).children[i].schema)
      {
        StrictSettles(s.children[i].schema);
      }
    }
  }

  /** The rewrite leaves a schema alone exactly when it is settled. */
  lemma {:induction false} StrictFixpointIff(s: Schema)
    ensures Strict(s) == s <==> Settled(s)
    decreases s
  {
    if s.Node? {
      forall i | 0 <= i < |s.children|
        ensures Enters(s.kind, s.children[i].slot) ==>
          (Strict(s.children[i].schema) == s.children[i].schema <==> Settled(s.children[i].schema))
      {
        StrictFixpointIff(s.children[i].schema);
      }
      var r := StrictChildren(s.kind, s.children);
      assert r == s.children <==> forall i | 0 <= i < |r| :: r[i].schema == s.children[i].schema;
    }
  }

  /** The argument of the rewrite is left as it was exactly when every dictionary entered below it is settled. */
  lemma ArgumentUnchangedIff(s: Schema)
    requires s.Node?
    ensures s.(children := StrictChildren(s.kind, s.children)) == s <==>
      forall i | 0 <= i < |s.children| && Enters(s.kind, s.children[i].slot) :: Settled(s.children[i].schema)
  {
    var r := StrictChildren(s.kind, s.children);
    forall i | 0 <= i < |r|
      ensures r[i] == s.children[i] <==> (Enters(s.kind, s.children[i].slot) ==> Settled(s.children[i].schema))
    {
      StrictFixpointIff(s.children[i].schema);
    }
    assert r == s.children <==> forall i | 0 <= i < |r| :: r[i] == s.children[i];
  }

  /** Rewriting twice is rewriting once. */
  lemma StrictTwice(s: Schema)
    ensures Strict(Strict(s)) == Strict(s)
  {
    StrictSettles(s);
    StrictFixpointIff(Strict(s));
  }

  // ----- the rewrite, keyword by keyword -----

  /** The names are those of the properties, in the order in which these stand. */
  ghost predicate NamesInOrder(slots: seq<Slot>, names: seq<string>, at: seq<int>) {
    && |at| == |names|
    && (forall k | 0 <= k < |at| :: 0 <= at[k] < |slots| && slots[at[k]] == Property(names[k]))
    && (forall k, m | 0 <= k < m < |at| :: at[k] < at[m])
    && forall i | 0 <= i < |slots| && slots[i].Property? :: i in at
  }

  lemma {:induction false} PropertyNamesInOrder(slots: seq<Slot>) returns (at: seq<int>)
    ensures NamesInOrder(slots, PropertyNames(slots), at)
  {
    hide NamesInOrder;
    if slots == [] {
      at := [];
      NoNames();
    } else {
      var n := |slots| - 1;
      at := PropertyNamesInOrder(slots[..n]);
      if slots[n].Property? {
        OneMoreName(slots, PropertyNames(slots[..n]), at);
        at := at + [n];
      } else {
        NoMoreNames(slots, PropertyNames(slots[..n]), at);
      }
    }
  }

  lemma NoNames()
    ensures NamesInOrder([], [], [])
  {
  }

  lemma NoMoreNames(slots: seq<Slot>, names: seq<string>, at: seq<int>)
    requires slots != [] && !slots[|slots| - 1].Property? && NamesInOrder(slots[..|slots| - 1], names, at)
    ensures NamesInOrder(slots, names, at)
  {
    var before := slots[..|slots| - 1];
    assert forall i | 0 <= i < |before| :: slots[i] == before[i];
  }

  lemma OneMoreName(slots: seq<Slot>, names: seq<string>, at: seq<int>)
    requires slots != [] && slots[|slots| - 1].Property? && NamesInOrder(slots[..|slots| - 1], names, at)
    ensures NamesInOrder(slots, names + [slots[|slots| - 1].name], at + [|slots| - 1])
  {
    var n := |slots| - 1;
    var before, all, more := slots[..n], names + [slots[n].name], at + [n];
    assert forall i | 0 <= i < n :: slots[i] == before[i];
    assert forall k | 0 <= k < |at| :: more[k] == at[k] && all[k] == names[k];
    assert more[|at|] == n && all[|at|] == slots[n].name;
    forall i | 0 <= i < |slots| && slots[i].Property?
      ensures i in more
    {
      if i < n {
        assert i in at;
      }
    }
  }

  /**
   What becomes of every keyword of a node. Below it everything is rewritten but the properties of a
   node that is not an object.
   */
  lemma StrictColumns(s: Schema)
    requires s.Node?
    ensures var r := Strict(s);
      && r.Node? && r.default.None? && r.ref == s.ref && r.kind == s.kind && r.mark == s.mark
      && |r.children| == |s.children|
      && (forall i | 0 <= i < |s.children| ::
            && r.children[i].slot == s.children[i].slot
            && r.children[i].schema
               == if s.children[i].slot.Property? && s.kind != Some("object") then s.children[i].schema
                  else Strict(s.children[i].schema))
      && (s.kind != Some("object") ==> r.additional == s.additional && r.required == s.required)
      && (s.kind == Some("object") ==>
            && r.additional == Flag(false) && r.required.Some?
            && exists at :: NamesInOrder(SlotsOf(s.children), r.required.value, at))
  {
    hide PropertyNames, SlotsOf, NamesInOrder;
    var at := PropertyNamesInOrder(SlotsOf(s.children));
  }

  // ----- what schemas accept -----

  const REF_PREFIX := "#/$defs/"

  /** The definition of a name among the children of the root. */
  function DefinitionOf(children: seq<Child>, name: string): Option<Schema> {
    if children == [] then None
    else
      var last := children[|children| - 1];
      if last.slot == Definition(name) then Some(last.schema) else DefinitionOf(children[..|children| - 1], name)
  }

  /**
   Whether a schema accepts a value when at most `fuel` references in a row are followed;
   `root` holds the definitions, `admits` says what the other keywords demand.
   */
  ghost predicate Accepts(fuel: nat, root: seq<Child>, admits: (nat, Json) -> bool, s: Schema, v: Json)
    decreases fuel, s, 1
  {
    if s.Truth? then s.allows
    else
      && admits(s.mark, v)
      && (s.ref.Some? ==> Follows(fuel, root, admits, s.ref.value, v))
      && (s.kind.Some? ==> HasKind(v, s.kind.value))
      && (forall i | 0 <= i < |s.children| :: Admits(fuel, root, admits, s.children[i], v))
      && ((exists i | 0 <= i < |s.children| :: s.children[i].slot == AnyOf) ==> SomeFits(fuel, root, admits, s, v))
      && ((exists i | 0 <= i < |s.children| :: s.children[i].slot == OneOf) ==>
            Matches(fuel, root, admits, s.children, v) == 1)
      && (v.Object? ==> MembersFit(fuel, root, admits, s, v))
  }

  ghost predicate Follows(fuel: nat, root: seq<Child>, admits: (nat, Json) -> bool, ref: string, v: Json)
    decreases fuel - 1
  {
    && REF_PREFIX <= ref && fuel > 0
    && var target := DefinitionOf(root, ref[|REF_PREFIX|..]);
    target.Some? && Accepts(fuel - 1, root, admits, target.value, v)
  }

  /** Child `i` is the last definition of this name, and this schema. */
  ghost predicate IsDefinition(children: seq<Child>, i: int, name: string, schema: Schema) {
    && 0 <= i < |children| && children[i] == Child(Definition(name), schema)
    && forall j | i < j < |children| :: children[j].slot != Definition(name)
  }

  ghost predicate Defines(children: seq<Child>, name: string, schema: Schema) {
    exists i :: IsDefinition(children, i, name, schema)
  }

  /** A reference is followed to the last definition of its name. */
  lemma {:induction false} DefinitionIsLast(children: seq<Child>, name: string, schema: Schema)
    ensures DefinitionOf(children, name) == Some(schema) <==> Defines(children, name, schema)
  {
    hide Defines;
    if children == [] {
      NoDefinition(name, schema);
    } else {
      DefinitionIsLast(children[..|children| - 1], name, schema);
      LastDefinition(children, name, schema);
    }
  }

  lemma NoDefinition(name: string, schema: Schema)
    ensures !Defines([], name, schema)
  {
  }

  lemma LastDefinition(children: seq<Child>, name: string, schema: Schema)
    requires children != []
    ensures var last, shorter := children[|children| - 1], children[..|children| - 1];
      Defines(children, name, schema) <==>
        if last.slot == Definition(name) then last.schema == schema else Defines(shorter, name, schema)
  {
    hide IsDefinition;
    var n := |children| - 1;
    var last, shorter := children[n], children[..n];
    forall i
      ensures last.slot != Definition(name) ==>
        (IsDefinition(children, i, name, schema) <==> IsDefinition(shorter, i, name, schema))
      ensures last.slot == Definition(name) ==>
        (IsDefinition(children, i, name, schema) <==> i == n && last.schema == schema)
    {
      DefinitionAtEnd(children, i, name, schema);
    }
    assert last.slot == Definition(name) && last.schema == schema ==> IsDefinition(children, n, name, schema);
  }

  lemma DefinitionAtEnd(children: seq<Child>, i: int, name: string, schema: Schema)
    requires children != []
    ensures var n := |children| - 1;
      && (children[n].slot != Definition(name) ==>
            (IsDefinition(children, i, name, schema) <==> IsDefinition(children[..n], i, name, schema)))
      && (children[n].slot == Definition(name) ==>
            (IsDefinition(children, i, name, schema) <==> i == n && children[n].schema == schema))
  {
    var n := |children| - 1;
    assert forall j | 0 <= j < n :: children[..n][j] == children[j];
    if i < n && children[n].slot == Definition(name) {
      assert !IsDefinition(children, i, name, schema);
    }
  }

  lemma FollowsIff(fuel: nat, root: seq<Child>, admits: (nat, Json) -> bool, ref: string, v: Json)
    ensures Follows(fuel, root, admits, ref, v) <==>
      && fuel > 0 && |ref| >= 8 && ref[..8] == "#/$defs/"
      && DefinitionOf(root, ref[8..]).Some? && Accepts(fuel - 1, root, admits, DefinitionOf(root, ref[8..]).value, v)
  {
    hide Accepts;
    assert "#/$defs/" <= ref <==> |ref| >= 8 && ref[..8] == "#/$defs/";
  }

  ghost predicate SomeFits(fuel: nat, root: seq<Child>, admits: (nat, Json) -> bool, s: Schema, v: Json)
    requires s.Node?
    decreases fuel, s, 0
  {
    exists i | 0 <= i < |s.children| ::
      s.children[i].slot == AnyOf && Accepts(fuel, root, admits, s.children[i].schema, v)
  }

  /** How many of the children are `oneOf` alternatives that accept the value. */
  ghost function Matches(fuel: nat, root: seq<Child>, admits: (nat, Json) -> bool, children: seq<Child>, v: Json): nat
    decreases fuel, children, 0
  {
    if children == [] then 0
    else (if IsMatch(fuel, root, admits, children[0], v) then 1 else 0) + Matches(fuel, root, admits, children[1..], v)
  }

  ghost predicate IsMatch(fuel: nat, root: seq<Child>, admits: (nat, Json) -> bool, c: Child, v: Json)
    decreases fuel, c, 2
  {
    c.slot == OneOf && Accepts(fuel, root, admits, c.schema, v)
  }

  ghost predicate MembersFit(fuel: nat, root: seq<Child>, admits: (nat, Json) -> bool, s: Schema, v: Json)
    requires s.Node? && v.Object?
    decreases fuel, s, 0
  {
    && (forall name | name in Names(s.required) :: name in v.members)
    && forall name | name in v.members && Property(name) !in SlotsOf(s.children) ::
         match s.additional
         case Unsaid => true
         case Flag(allowed) => allowed
         case Shape(shape) => Accepts(fuel, root, admits, shape, v.members[name])
  }

  /** What one subschema demands on its own. */
  ghost predicate Admits(fuel: nat, root: seq<Child>, admits: (nat, Json) -> bool, c: Child, v: Json)
    decreases fuel, c, 2
  {
    match c.slot
    case Property(name) => v.Object? && name in v.members ==> Accepts(fuel, root, admits, c.schema, v.members[name])
    case Items => v.Array? ==> forall k | 0 <= k < |v.elements| :: Accepts(fuel, root, admits, c.schema, v.elements[k])
    case AllOf => Accepts(fuel, root, admits, c.schema, v)
    case _ => true
  }

  /** Object nodes require only properties they declare, and no value fits two alternatives of a `oneOf`. */
  ghost predicate Regular(root: seq<Child>, admits: (nat, Json) -> bool, s: Schema)
    decreases s, 1
  {
    s.Node? ==> Exclusive(root, admits, s.children) && RegularButOneOf(root, admits, s)
  }

  /** The alternatives of the node itself are not asked about. */
  ghost predicate RegularButOneOf(root: seq<Child>, admits: (nat, Json) -> bool, s: Schema)
    requires s.Node?
    decreases s, 0
  {
    && (s.kind == OBJECT ==> forall name | name in Names(s.required) :: Property(name) in SlotsOf(s.children))
    && (s.additional.Shape? ==> Regular(root, admits, s.additional.shape))
    && forall i | 0 <= i < |s.children| :: Regular(root, admits, s.children[i].schema)
  }

  ghost predicate Exclusive(root: seq<Child>, admits: (nat, Json) -> bool, children: seq<Child>) {
    forall fuel: nat, v :: Matches(fuel, root, admits, children, v) <= 1
  }

  ghost predicate RegularRoot(root: seq<Child>, admits: (nat, Json) -> bool) {
    forall i | 0 <= i < |root| :: Regular(root, admits, root[i].schema)
  }

  lemma {:induction false} SomeMatch(fuel: nat, root: seq<Child>, admits: (nat, Json) -> bool, children: seq<Child>,
        v: Json)
    ensures Matches(fuel, root, admits, children, v) > 0 <==>
      exists i :: 0 <= i < |children| && IsMatch(fuel, root, admits, children[i], v)
  {
    hide IsMatch;
    if children != [] {
      SomeMatch(fuel, root, admits, children[1..], v);
      if i :| 0 <= i < |children| && IsMatch(fuel, root, admits, children[i], v) {
        if i > 0 {
          assert children[1..][i - 1] == children[i];
        }
      }
      if i :| 0 <= i < |children[1..]| && IsMatch(fuel, root, admits, children[1..][i], v) {
        assert IsMatch(fuel, root, admits, children[i + 1], v);
      }
    }
  }

  lemma {:induction false} StrictPrefix(kind: Option<string>, children: seq<Child>)
    requires children != []
    ensures StrictChildren(kind, children)[..|children| - 1] == StrictChildren(kind, children[..|children| - 1])
  {
    hide Strict;
  }

  lemma {:induction false} DefinitionsAreStrict(kind: Option<string>, root: seq<Child>, name: string)
    ensures var d, d' := DefinitionOf(root, name), DefinitionOf(StrictChildren(kind, root), name);
      && (d.Some? <==> d'.Some?)
      && (d.Some? ==> d'.value == Strict(d.value) && exists i | 0 <= i < |root| :: root[i].schema == d.value)
  {
    hide Strict, StrictChildren;
    if root != [] {
      StrictPrefix(kind, root);
      if root[|root| - 1].slot != Definition(name) {
        DefinitionsAreStrict(kind, root[..|root| - 1], name);
      }
    }
  }

  /**
   Every value that the strict form accepts, the original accepts, through references that
   lead to rewritten definitions. `entered` tells whether the node itself is rewritten.
   */
  lemma {:induction false} StrictIsStricter(fuel: nat, kind: Option<string>, root: seq<Child>,
        admits: (nat, Json) -> bool, s: Schema, entered: bool, v: Json)
    requires Regular(root, admits, s) && RegularRoot(root, admits)
    requires Accepts(fuel, StrictChildren(kind, root), admits, if entered then Strict(s) else s, v)
    ensures Accepts(fuel, root, admits, s, v)
    decreases fuel, s, 2
  {
    hide Accepts, RegularButOneOf, RegularRoot, Matches, Strict, StrictChildren;
    if s.Node? {
      NodeIsStricter(fuel, kind, root, admits, s, entered, v);
    } else {
      TruthIsStrict(fuel, kind, root, admits, s, v);
    }
  }

  lemma TruthIsStrict(fuel: nat, kind: Option<string>, root: seq<Child>, admits: (nat, Json) -> bool, s: Schema,
        v: Json)
    requires s.Truth?
    ensures Strict(s) == s
    ensures Accepts(fuel, StrictChildren(kind, root), admits, s, v) <==> Accepts(fuel, root, admits, s, v)
  {
  }

  /** The step for one node: of its own alternatives it is enough that this value fits one at most. */
  lemma {:induction false} NodeIsStricter(fuel: nat, kind: Option<string>, root: seq<Child>,
        admits: (nat, Json) -> bool, s: Schema, entered: bool, v: Json)
    requires s.Node? && RegularButOneOf(root, admits, s) && RegularRoot(root, admits)
    requires Matches(fuel, root, admits, s.children, v) <= 1
    requires Accepts(fuel, StrictChildren(kind, root), admits, if entered then Strict(s) else s, v)
    ensures Accepts(fuel, root, admits, s, v)
    decreases fuel, s, 1
  {
    hide RegularButOneOf, RegularRoot, PropertyNames, HasKind, Admits, Follows, SomeFits, Matches, MembersFit;
    var root', s' := StrictChildren(kind, root), if entered then Strict(s) else s;
    if s.ref.Some? {
      RefIsStricter(fuel, kind, root, admits, s.ref.value, v);
    }
    forall i | 0 <= i < |s.children|
      ensures Admits(fuel, root, admits, s.children[i], v)
    {
      assert Admits(fuel, root', admits, s'.children[i], v);
      RegularChild(root, admits, s, i);
      ChildIsStricter(fuel, kind, root, admits, s.children[i], entered && Enters(s.kind, s.children[i].slot), v);
    }
    if i :| 0 <= i < |s.children| && s.children[i].slot == AnyOf {
      assert s'.children[i].slot == AnyOf;
      SomeIsStricter(fuel, kind, root, admits, s, entered, v);
    }
    if i :| 0 <= i < |s.children| && s.children[i].slot == OneOf {
      assert s'.children[i].slot == OneOf;
      OneIsStricter(fuel, kind, root, admits, s, entered, v);
    }
    if v.Object? {
      MembersAreStricter(fuel, kind, root, admits, s, entered, v);
    }
  }

  lemma RegularChild(root: seq<Child>, admits: (nat, Json) -> bool, s: Schema, i: nat)
    requires s.Node? && RegularButOneOf(root, admits, s) && i < |s.children|
    ensures Regular(root, admits, s.children[i].schema)
  {
    hide Regular;
  }

  /** If some alternative of the strict form fits, so does the alternative it comes from. */
  lemma {:induction false} OneIsStricter(fuel: nat, kind: Option<string>, root: seq<Child>,
        admits: (nat, Json) -> bool, s: Schema, entered: bool, v: Json)
    requires s.Node? && RegularButOneOf(root, admits, s) && RegularRoot(root, admits)
    requires Matches(fuel, StrictChildren(kind, root), admits, (if entered then Strict(s) else s).children, v) > 0
    ensures Matches(fuel, root, admits, s.children, v) > 0
    decreases fuel, s, 0
  {
    hide Accepts, RegularButOneOf, RegularRoot, PropertyNames, Matches;
    var root', s' := StrictChildren(kind, root), if entered then Strict(s) else s;
    SomeMatch(fuel, root', admits, s'.children, v);
    var i :| 0 <= i < |s'.children| && IsMatch(fuel, root', admits, s'.children[i], v);
    RegularChild(root, admits, s, i);
    StrictIsStricter(fuel, kind, root, admits, s.children[i].schema, entered, v);
    assert IsMatch(fuel, root, admits, s.children[i], v);
    SomeMatch(fuel, root, admits, s.children, v);
  }

  lemma {:induction false} RefIsStricter(fuel: nat, kind: Option<string>, root: seq<Child>, admits: (nat, Json) -> bool,
        ref: string, v: Json)
    requires RegularRoot(root, admits)
    requires Follows(fuel, StrictChildren(kind, root), admits, ref, v)
    ensures Follows(fuel, root, admits, ref, v)
    decreases fuel - 1
  {
    hide Regular, DefinitionOf, Accepts;
    var name := ref[|REF_PREFIX|..];
    DefinitionsAreStrict(kind, root, name);
    StrictIsStricter(fuel - 1, kind, root, admits, DefinitionOf(root, name).value, true, v);
  }

  lemma {:induction false} SomeIsStricter(fuel: nat, kind: Option<string>, root: seq<Child>,
        admits: (nat, Json) -> bool, s: Schema, entered: bool, v: Json)
    requires s.Node? && RegularButOneOf(root, admits, s) && RegularRoot(root, admits)
    requires SomeFits(fuel, StrictChildren(kind, root), admits, if entered then Strict(s) else s, v)
    ensures SomeFits(fuel, root, admits, s, v)
    decreases fuel, s, 0
  {
    hide Accepts, RegularButOneOf, RegularRoot, PropertyNames;
    var root', s' := StrictChildren(kind, root), if entered then Strict(s) else s;
    var i :| 0 <= i < |s.children| && s'.children[i].slot == AnyOf
      && Accepts(fuel, root', admits, s'.children[i].schema, v);
    RegularChild(root, admits, s, i);
    StrictIsStricter(fuel, kind, root, admits, s.children[i].schema, entered, v);
  }

  lemma {:induction false} ChildIsStricter(fuel: nat, kind: Option<string>, root: seq<Child>,
        admits: (nat, Json) -> bool, c: Child, entered: bool, v: Json)
    requires Regular(root, admits, c.schema) && RegularRoot(root, admits)
    requires Admits(fuel, StrictChildren(kind, root), admits,
      Child(c.slot, if entered then Strict(c.schema) else c.schema), v)
    ensures Admits(fuel, root, admits, c, v)
    decreases fuel, c, 2
  {
    hide Regular, RegularRoot, Accepts, Strict;
    match c.slot {
      case Property(name) =>
        if v.Object? && name in v.members {
          StrictIsStricter(fuel, kind, root, admits, c.schema, entered, v.members[name]);
        }
      case Items =>
        if v.Array? {
          forall k | 0 <= k < |v.elements|
            ensures Accepts(fuel, root, admits, c.schema, v.elements[k])
          {
            StrictIsStricter(fuel, kind, root, admits, c.schema, entered, v.elements[k]);
          }
        }
      case AllOf => StrictIsStricter(fuel, kind, root, admits, c.schema, entered, v);
      case _ =>
    }
  }

  /** A rewritten object node lets no undeclared member through and requires every declared one. */
  lemma {:induction false} MembersAreStricter(fuel: nat, kind: Option<string>, root: seq<Child>,
        admits: (nat, Json) -> bool, s: Schema, entered: bool, v: Json)
    requires s.Node? && RegularButOneOf(root, admits, s) && RegularRoot(root, admits)
    requires v.Object? && MembersFit(fuel, StrictChildren(kind, root), admits, if entered then Strict(s) else s, v)
    ensures MembersFit(fuel, root, admits, s, v)
    decreases fuel, s, 0
  {
    hide Accepts, Regular, RegularRoot;
    assert SlotsOf(Strict(s).children) == SlotsOf(s.children);
    if s.additional.Shape? && !(entered && s.kind == OBJECT) {
      forall name | name in v.members && Property(name) !in SlotsOf(s.children)
        ensures Accepts(fuel, root, admits, s.additional.shape, v.members[name])
      {
        StrictIsStricter(fuel, kind, root, admits, s.additional.shape, false, v.members[name]);
      }
    }
  }

  /** Hence the strict schema accepts no value that the original does not. */
  lemma StrictIsSound(fuel: nat, schema: Schema, admits: (nat, Json) -> bool, v: Json)
    requires schema.Node? && Regular(schema.children, admits, schema)
    requires Accepts(fuel, Strict(schema).children, admits, Strict(schema), v)
    ensures Accepts(fuel, schema.children, admits, schema, v)
  {
    hide Accepts;
    StrictIsStricter(fuel, schema.kind, schema.children, admits, schema, true, v);
  }

  // ----- why the two conditions are there -----

  /** What the strict form of an object node accepts has only declared members. */
  lemma UndeclaredIsLost(fuel: nat, root: seq<Child>, kind: Option<string>, admits: (nat, Json) -> bool, s: Schema,
        v: Json, name: string)
    requires s.Node? && s.kind == OBJECT && Accepts(fuel, StrictChildren(kind, root), admits, Strict(s), v)
    requires name in Names(s.required) && Property(name) !in SlotsOf(s.children)
    ensures !Accepts(fuel, root, admits, s, v)
  {
    hide Admits, Follows, SomeFits, Matches, StrictChildren;
    assert SlotsOf(Strict(s).children) == SlotsOf(s.children);
    assert v.Object? && MembersFit(fuel, StrictChildren(kind, root), admits, Strict(s), v);
  }

  /**
   A required name that no property declares is dropped. So an object node whose strict form
   accepts anything at all is rewritten soundly exactly when it declares what it requires.
   */
  lemma RequiredMustBeDeclared(fuel: nat, root: seq<Child>, kind: Option<string>, admits: (nat, Json) -> bool,
        s: Schema, sample: Json)
    requires s.Node? && s.kind == OBJECT && Regular(root, admits, s.(required := None)) && RegularRoot(root, admits)
    requires Accepts(fuel, StrictChildren(kind, root), admits, Strict(s), sample)
    ensures (forall v | Accepts(fuel, StrictChildren(kind, root), admits, Strict(s), v) ::
      Accepts(fuel, root, admits, s, v))
       <==> (forall name | name in Names(s.required) :: Property(name) in SlotsOf(s.children))
  {
    hide Accepts, Strict, StrictChildren, SlotsOf, RegularRoot, Matches;
    if name :| name in Names(s.required) && Property(name) !in SlotsOf(s.children) {
      UndeclaredIsLost(fuel, root, kind, admits, s, sample, name);
    } else {
      assert RegularButOneOf(root, admits, s.(required := None));
      forall v | Accepts(fuel, StrictChildren(kind, root), admits, Strict(s), v)
        ensures Accepts(fuel, root, admits, s, v)
      {
        StrictIsStricter(fuel, kind, root, admits, s, true, v);
      }
    }
  }

  /**
   A node with alternatives is rewritten soundly exactly when none of the values that its
   strict form accepts fits two of the original alternatives.
   */
  lemma AlternativesMustBeApart(fuel: nat, root: seq<Child>, kind: Option<string>, admits: (nat, Json) -> bool,
        s: Schema)
    requires s.Node? && RegularButOneOf(root, admits, s) && RegularRoot(root, admits)
    requires exists i | 0 <= i < |s.children| :: s.children[i].slot == OneOf
    ensures (forall v | Accepts(fuel, StrictChildren(kind, root), admits, Strict(s), v) ::
      Accepts(fuel, root, admits, s, v))
       <==> (forall v | Accepts(fuel, StrictChildren(kind, root), admits, Strict(s), v) ::
      Matches(fuel, root, admits, s.children, v) <= 1)
  {
    hide Accepts, Strict, StrictChildren, RegularButOneOf, RegularRoot, Matches;
    forall v | Accepts(fuel, StrictChildren(kind, root), admits, Strict(s), v)
      ensures Accepts(fuel, root, admits, s, v) <==> Matches(fuel, root, admits, s.children, v) <= 1
    {
      if Accepts(fuel, root, admits, s, v) {
        AcceptedFitsOne(fuel, root, admits, s, v);
      } else if Matches(fuel, root, admits, s.children, v) <= 1 {
        NodeIsStricter(fuel, kind, root, admits, s, true, v);
      }
    }
  }

  lemma AcceptedFitsOne(fuel: nat, root: seq<Child>, admits: (nat, Json) -> bool, s: Schema, v: Json)
    requires s.Node? && exists i | 0 <= i < |s.children| :: s.children[i].slot == OneOf
    requires Accepts(fuel, root, admits, s, v)
    ensures Matches(fuel, root, admits, s.children, v) == 1
  {
    hide Admits, Matches, MembersFit, SomeFits, Follows;
  }

  predicate Anything(mark: nat, v: Json) {
    true
  }

  function ObjectNode(properties: seq<Child>, additional: Additional, required: Option<seq<string>>): Schema {
    Node(None, OBJECT, None, properties, additional, required, 0)
  }

  /** Object nodes whose properties accept anything are told apart by their members alone. */
  lemma ObjectNodeAccepts(fuel: nat, root: seq<Child>, names: seq<string>, additional: Additional,
        required: Option<seq<string>>, v: Json)
    requires v.Object? && !additional.Shape?
    ensures Accepts(fuel, root, Anything, ObjectNode(AnyProperties(names), additional, required), v) <==>
      && (forall name | name in Names(required) :: name in v.members)
      && (additional == Flag(false) ==> forall name | name in v.members :: name in names)
  {
    hide DefinitionOf, PropertyNames;
    var slots := SlotsOf(AnyProperties(names));
    forall name
      ensures Property(name) in slots <==> name in names
    {
      if i :| 0 <= i < |names| && names[i] == name {
        assert slots[i] == Property(name);
      }
    }
    assert forall i | 0 <= i < |names| && names[i] in v.members ::
      Accepts(fuel, root, Anything, Truth(true), v.members[names[i]]);
  }

  function AnyProperties(names: seq<string>): (r: seq<Child>)
    ensures |r| == |names| && forall i | 0 <= i < |r| :: r[i] == Child(Property(names[i]), Truth(true))
  {
    seq(|names|, i requires 0 <= i < |names| => Child(Property(names[i]), Truth(true)))
  }

  lemma StrictObjectNode(names: seq<string>)
    ensures |names| <= 1 ==>
      Strict(ObjectNode(AnyProperties(names), Unsaid, None))
        == ObjectNode(AnyProperties(names), Flag(false), Some(names))
  {
    var cs := AnyProperties(names);
    assert forall i | 0 <= i < |cs| :: Strict(cs[i].schema) == cs[i].schema && StrictChild(OBJECT, cs[i]) == cs[i];
    assert StrictChildren(OBJECT, cs) == cs;
    if |names| == 1 {
      assert SlotsOf(cs) == [Property(names[0])] && names == [names[0]];
      assert PropertyNames([Property(names[0])]) == [names[0]];
    } else if names == [] {
      assert SlotsOf(cs) == [] && PropertyNames([]) == [];
    }
  }

  function Alternatives(one: Schema, two: Schema): Schema {
    Node(None, None, None, [Child(OneOf, one), Child(OneOf, two)], Unsaid, None, 0)
  }

  lemma AlternativesAccept(fuel: nat, root: seq<Child>, one: Schema, two: Schema, v: Json)
    ensures Accepts(fuel, root, Anything, Alternatives(one, two), v) <==>
      (Accepts(fuel, root, Anything, one, v) <==> !Accepts(fuel, root, Anything, two, v))
  {
    hide Follows, SomeFits, HasKind;
    var s := Alternatives(one, two);
    assert s.children[0].slot == OneOf;
    assert s.children[1..] == [Child(OneOf, two)] && [Child(OneOf, two)][1..] == [];
    assert Matches(fuel, root, Anything, [Child(OneOf, two)], v) ==
      if Accepts(fuel, root, Anything, two, v) then 1 else 0;
    assert forall i | 0 <= i < |s.children| ::
      s.children[i].slot == OneOf && Admits(fuel, root, Anything, s.children[i], v);
    assert v.Object? ==> MembersFit(fuel, root, Anything, s, v);
    assert Matches(fuel, root, Anything, s.children, v) ==
      (if Accepts(fuel, root, Anything, one, v) then 1 else 0)
        + (if Accepts(fuel, root, Anything, two, v) then 1 else 0);
    assert Anything(s.mark, v);
    assert Accepts(fuel, root, Anything, s, v) <==> Matches(fuel, root, Anything, s.children, v) == 1;
  }

  /** Closing the alternatives of a `oneOf` can leave one match of the two there were before. */
  lemma ClosedAlternativesDiffer(fuel: nat)
    ensures var s :=
      Alternatives(ObjectNode(AnyProperties(["a"]), Unsaid, None), ObjectNode(AnyProperties([]), Unsaid, None));
      && Accepts(fuel, Strict(s).children, Anything, Strict(s), Object(map["a" := Null]))
      && !Accepts(fuel, s.children, Anything, s, Object(map["a" := Null]))
  {
    hide Accepts, SlotsOf, PropertyNames, AnyProperties;
    var one, two := ObjectNode(AnyProperties(["a"]), Unsaid, None), ObjectNode(AnyProperties([]), Unsaid, None);
    var s, v := Alternatives(one, two), Object(map["a" := Null]);
    StrictObjectNode(["a"]);
    StrictObjectNode([]);
    assert Strict(s) == Alternatives(Strict(one), Strict(two));
    AlternativesAccept(fuel, s.children, one, two, v);
    ObjectNodeAccepts(fuel, s.children, ["a"], Unsaid, None, v);
    ObjectNodeAccepts(fuel, s.children, [], Unsaid, None, v);
    AlternativesAccept(fuel, Strict(s).children, Strict(one), Strict(two), v);
    ObjectNodeAccepts(fuel, Strict(s).children, ["a"], Flag(false), Some(["a"]), v);
    ObjectNodeAccepts(fuel, Strict(s).children, [], Flag(false), Some([]), v);
  }
}
