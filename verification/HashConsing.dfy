/** Lowering of a type expression into a shared node arena
    (`schema/ir.rs` and the `build_*` half of `schema/compiler.rs`). */
module HashConsing {
  import opened Schema

  /** Every id mentioned by a node is below `bound`. */
  predicate ChildrenBelow(node: Node, bound: nat) {
    match node
    case Primitive(_) => true
    case Enum(_) => true
    case Optional(of) => of < bound
    case List(of, _) => of < bound
    case Dict(value, _) => value < bound
    case Struct(fields, _) => forall i | 0 <= i < |fields| :: fields[i].node < bound
  }

  /** Children sit strictly below their parents: no dangling ids, no cycles. */
  predicate Layered(nodes: seq<Node>) {
    forall i | 0 <= i < |nodes| :: ChildrenBelow(nodes[i], i)
  }

  /** The type expression that an id stands for. */
  function Unfold(nodes: seq<Node>, id: NodeId): TypeExpr
    requires Layered(nodes) && id < |nodes|
    decreases id
  {
    assert ChildrenBelow(nodes[id], id);
    match nodes[id]
    case Primitive(primitive) => TypeExpr.Primitive(primitive)
    case Enum(variants) => TypeExpr.Enum(variants)
    case Optional(of) => TypeExpr.Optional(Unfold(nodes, of))
    case List(of, constraints) => TypeExpr.List(Unfold(nodes, of), constraints)
    case Dict(value, constraints) => TypeExpr.Dict(Unfold(nodes, value), constraints)
    case Struct(fields, extra) =>
      TypeExpr.Struct(
        seq(|fields|, i requires 0 <= i < |fields| =>
          FieldExpr(fields[i].name, fields[i].presence, Unfold(nodes, fields[i].node))),
        extra)
  }

  /** Growing the arena never changes what an existing id means. */
  lemma {:induction false} UnfoldStable(nodes: seq<Node>, more: seq<Node>, id: NodeId)
    requires nodes <= more && Layered(nodes) && Layered(more) && id < |nodes|
    ensures Unfold(more, id) == Unfold(nodes, id)
    decreases id
  {
    assert ChildrenBelow(nodes[id], id);
    match nodes[id]
    case Primitive(_) =>
    case Enum(_) =>
    case Optional(of) => UnfoldStable(nodes, more, of);
    case List(of, _) => UnfoldStable(nodes, more, of);
    case Dict(value, _) => UnfoldStable(nodes, more, value);
    case Struct(fields, _) =>
      forall i | 0 <= i < |fields|
        ensures Unfold(more, fields[i].node) == Unfold(nodes, fields[i].node)
      {
        UnfoldStable(nodes, more, fields[i].node);
      }
      assert Unfold(more, id).fields == Unfold(nodes, id).fields;
  }

  /** Intern table and arena are mutually inverse. */
  ghost predicate Inverse(nodes: seq<Node>, entries: map<Node, NodeId>) {
    && (forall i | 0 <= i < |nodes| :: nodes[i] in entries && entries[nodes[i]] == i)
    && (forall n | n in entries :: entries[n] < |nodes| && nodes[entries[n]] == n)
  }

  ghost predicate Consed(nodes: seq<Node>, entries: map<Node, NodeId>) {
    && Layered(nodes)
    && Inverse(nodes, entries)
  }

  /** Maximal sharing: two ids mean the same type only if they are one id. */
  lemma {:induction false} UnfoldInjective(nodes: seq<Node>, entries: map<Node, NodeId>, i: NodeId, j: NodeId)
    requires Consed(nodes, entries) && i < |nodes| && j < |nodes|
    requires Unfold(nodes, i) == Unfold(nodes, j)
    ensures i == j
    decreases i
  {
    assert ChildrenBelow(nodes[i], i) && ChildrenBelow(nodes[j], j);
    assert nodes[i] == nodes[j] by {
      match nodes[i]
      case Primitive(_) =>
      case Enum(_) =>
      case Optional(of) => UnfoldInjective(nodes, entries, of, nodes[j].of);
      case List(of, _) => UnfoldInjective(nodes, entries, of, nodes[j].of);
      case Dict(value, _) => UnfoldInjective(nodes, entries, value, nodes[j].value);
      case Struct(fields, _) => SameFields(nodes, entries, i, j);
    }
  }

  lemma {:induction false} SameFields(nodes: seq<Node>, entries: map<Node, NodeId>, i: NodeId, j: NodeId)
    requires Consed(nodes, entries) && i < |nodes| && j < |nodes|
    requires nodes[i].Struct? && Unfold(nodes, i) == Unfold(nodes, j)
    ensures nodes[i] == nodes[j]
    decreases i, 0
  {
    assert ChildrenBelow(nodes[i], i) && ChildrenBelow(nodes[j], j);
    var fs, gs := nodes[i].fields, nodes[j].fields;
    assert |fs| == |Unfold(nodes, i).fields| == |gs|;
    forall k | 0 <= k < |fs| ensures fs[k] == gs[k] {
      assert Unfold(nodes, i).fields[k] == Unfold(nodes, j).fields[k];
      UnfoldInjective(nodes, entries, fs[k].node, gs[k].node);
    }
    assert fs == gs;
  }

  /** All types that arena ids stand for. */
  ghost function Meanings(nodes: seq<Node>): set<TypeExpr>
    requires Layered(nodes) && |nodes| <= U32_MAX + 1
  {
    set id: NodeId | 0 <= id < |nodes| :: Unfold(nodes, id)
  }

  lemma LayeredPrefix(nodes: seq<Node>, n: nat)
    requires Layered(nodes) && n <= |nodes|
    ensures Layered(nodes[..n])
  {
    forall i | 0 <= i < n ensures ChildrenBelow(nodes[..n][i], i) {
      assert ChildrenBelow(nodes[i], i);
    }
  }

  /** One more node adds exactly its own meaning. */
  lemma MeaningsAppend(nodes: seq<Node>, node: Node)
    requires Layered(nodes) && |nodes| <= U32_MAX && ChildrenBelow(node, |nodes|)
    ensures Layered(nodes + [node])
    ensures Meanings(nodes + [node]) == Meanings(nodes) + {Unfold(nodes + [node], |nodes|)}
  {
    var more := nodes + [node];
    forall i | 0 <= i < |more| ensures ChildrenBelow(more[i], i) {
      if i < |nodes| {
        assert ChildrenBelow(nodes[i], i);
      }
    }
    forall id: NodeId | 0 <= id < |nodes| ensures Unfold(more, id) == Unfold(nodes, id) {
      UnfoldStable(nodes, more, id);
    }
    forall t | t in Meanings(nodes) ensures t in Meanings(more) {
      var id: NodeId :| 0 <= id < |nodes| && t == Unfold(nodes, id);
      assert Unfold(more, id) in Meanings(more);
    }
    forall t | t in Meanings(more) ensures t in Meanings(nodes) + {Unfold(more, |nodes|)} {
      var id: NodeId :| 0 <= id < |more| && t == Unfold(more, id);
      if id < |nodes| {
        assert Unfold(nodes, id) in Meanings(nodes);
      }
    }
  }

  /** The arena holds one node per distinct meaning. */
  lemma {:induction false} MeaningsCount(nodes: seq<Node>, entries: map<Node, NodeId>, n: nat)
    requires Consed(nodes, entries) && n <= |nodes| <= U32_MAX + 1
    ensures Layered(nodes[..n]) && |Meanings(nodes[..n])| == n
  {
    LayeredPrefix(nodes, n);
    if n == 0 {
      assert Meanings(nodes[..0]) == {};
    } else {
      MeaningsCount(nodes, entries, n - 1);
      var before := nodes[..n - 1];
      assert nodes[..n] == before + [nodes[n - 1]];
      assert ChildrenBelow(nodes[n - 1], n - 1);
      MeaningsAppend(before, nodes[n - 1]);
      if Unfold(nodes[..n], n - 1) in Meanings(before) {
        var id: NodeId :| 0 <= id < n - 1 && Unfold(nodes[..n], n - 1) == Unfold(before, id);
        UnfoldStable(before, nodes, id);
        UnfoldStable(nodes[..n], nodes, n - 1);
        UnfoldInjective(nodes, entries, id, n - 1);
        assert false;
      }
    }
  }

  class SchemaArena {
    var nodes: seq<Node>

    constructor ()
      ensures nodes == []
    {
      nodes := [];
    }

    /** The source asserts that the 32-bit id cannot overflow. */
    method Alloc(node: Node) returns (id: NodeId)
      requires |nodes| < U32_MAX
      modifies this
      ensures id == |old(nodes)| && nodes == old(nodes) + [node]
    {
      id := |nodes|;
      nodes := nodes + [node];
    }
  }

  class InternTable {
    var entries: map<Node, NodeId>

    constructor ()
      ensures entries == map[]
    {
      entries := map[];
    }

    /** Returns the id of `node`, allocating only if it was never seen. */
    method Intern(arena: SchemaArena, node: Node) returns (id: NodeId)
      requires Consed(arena.nodes, entries) && ChildrenBelow(node, |arena.nodes|)
      requires node !in entries ==> |arena.nodes| < U32_MAX
      modifies this, arena
      ensures Consed(arena.nodes, entries)
      ensures id < |arena.nodes| && arena.nodes[id] == node
      ensures arena.nodes == if node in old(arena.nodes) then old(arena.nodes) else old(arena.nodes) + [node]
    {
      if node in entries {
        id := entries[node];
      } else {
        id := arena.Alloc(node);
        entries := entries[node := id];
        assert Layered(arena.nodes) by {
          forall i | 0 <= i < |arena.nodes| ensures ChildrenBelow(arena.nodes[i], i) {
            if i < id {
              assert ChildrenBelow(old(arena.nodes)[i], i);
            }
          }
        }
      }
    }
  }

  /** Extending a consed arena by a node it lacks keeps it consed. */
  lemma ConsedAppend(nodes: seq<Node>, entries: map<Node, NodeId>, node: Node)
    requires Consed(nodes, entries) && ChildrenBelow(node, |nodes|)
    requires node !in entries && |nodes| <= U32_MAX
    ensures Consed(nodes + [node], entries[node := |nodes|])
  {
    forall i | 0 <= i < |nodes| + 1 ensures ChildrenBelow((nodes + [node])[i], i) {
      if i < |nodes| {
        assert ChildrenBelow(nodes[i], i);
      }
    }
  }

  /** A node the table lacks stands for a type no id stands for yet, so there
      is still room for it among the types of the document. */
  lemma RoomForNode(nodes: seq<Node>, entries: map<Node, NodeId>, node: Node, universe: set<TypeExpr>)
    requires Consed(nodes, entries) && ChildrenBelow(node, |nodes|)
    requires node !in entries && |nodes| <= U32_MAX
    requires Layered(nodes + [node]) && Unfold(nodes + [node], |nodes|) in universe
    requires Meanings(nodes) <= universe
    ensures |nodes| < |universe|
  {
    var more := nodes + [node];
    ConsedAppend(nodes, entries, node);
    if Unfold(more, |nodes|) in Meanings(nodes) {
      var id: NodeId :| 0 <= id < |nodes| && Unfold(more, |nodes|) == Unfold(nodes, id);
      UnfoldStable(nodes, more, id);
      UnfoldInjective(more, entries[node := |nodes|], id, |nodes|);
      assert false;
    }
    MeaningsCount(nodes, entries, |nodes|);
    assert nodes[..|nodes|] == nodes;
    CardinalityMonotone(Meanings(nodes) + {Unfold(more, |nodes|)}, universe);
  }

  lemma {:induction false} CardinalityMonotone<T>(a: set<T>, b: set<T>)
    requires a <= b
    ensures |a| <= |b|
  {
    if a != {} {
      var x :| x in a;
      CardinalityMonotone(a - {x}, b - {x});
    }
  }

  /** A node whose children already stand for the parts of `ty` stands for `ty`. */
  ghost predicate Encodes(nodes: seq<Node>, node: Node, ty: TypeExpr)
    requires Layered(nodes) && ChildrenBelow(node, |nodes|)
  {
    match node
    case Primitive(primitive) => ty == TypeExpr.Primitive(primitive)
    case Enum(variants) => ty == TypeExpr.Enum(variants)
    case Optional(of) => ty == TypeExpr.Optional(Unfold(nodes, of))
    case List(of, constraints) => ty == TypeExpr.List(Unfold(nodes, of), constraints)
    case Dict(value, constraints) => ty == TypeExpr.Dict(Unfold(nodes, value), constraints)
    case Struct(fields, extra) =>
      && ty.Struct? && ty.extra == extra && |ty.fields| == |fields|
      && forall i | 0 <= i < |fields| ::
           ty.fields[i] == FieldExpr(fields[i].name, fields[i].presence, Unfold(nodes, fields[i].node))
  }

  lemma EncodesUnfold(nodes: seq<Node>, more: seq<Node>, node: Node, id: NodeId, ty: TypeExpr)
    requires nodes <= more && Layered(nodes) && Layered(more)
    requires ChildrenBelow(node, |nodes|) && Encodes(nodes, node, ty)
    requires id < |more| && more[id] == node
    ensures Unfold(more, id) == ty
  {
    assert ChildrenBelow(more[id], id);
    match node
    case Primitive(_) =>
    case Enum(_) =>
    case Optional(of) => UnfoldStable(nodes, more, of);
    case List(of, _) => UnfoldStable(nodes, more, of);
    case Dict(value, _) => UnfoldStable(nodes, more, value);
    case Struct(fields, _) =>
      forall i | 0 <= i < |fields| ensures Unfold(more, id).fields[i] == ty.fields[i] {
        UnfoldStable(nodes, more, fields[i].node);
      }
      assert Unfold(more, id).fields == ty.fields;
  }

  /** Interns a node known to encode `ty`: the arena now means `ty` as well,
      and nothing else is new. */
  method InternAs(arena: SchemaArena, intern: InternTable, node: Node,
                  ghost ty: TypeExpr, ghost universe: set<TypeExpr>)
    returns (id: NodeId)
    requires Consed(arena.nodes, intern.entries) && |arena.nodes| <= U32_MAX
    requires ChildrenBelow(node, |arena.nodes|) && Encodes(arena.nodes, node, ty)
    requires Meanings(arena.nodes) <= universe && ty in universe && |universe| <= U32_MAX
    modifies arena, intern
    ensures Consed(arena.nodes, intern.entries) && |arena.nodes| <= U32_MAX
    ensures old(arena.nodes) <= arena.nodes
    ensures id < |arena.nodes| && Unfold(arena.nodes, id) == ty
    ensures Meanings(arena.nodes) == old(Meanings(arena.nodes)) + {ty}
  {
    ghost var before := arena.nodes;
    if node !in intern.entries {
      MeaningsAppend(before, node);
      EncodesUnfold(before, before + [node], node, |before|, ty);
      RoomForNode(before, intern.entries, node, universe);
    }
    id := intern.Intern(arena, node);
    EncodesUnfold(before, arena.nodes, node, id, ty);
    if node in before {
      assert Unfold(arena.nodes, id) in Meanings(before);
    }
  }

  method BuildTypeExpr(arena: SchemaArena, intern: InternTable, expr: TypeExpr,
                       ghost universe: set<TypeExpr>)
    returns (id: NodeId)
    requires Consed(arena.nodes, intern.entries) && |arena.nodes| <= U32_MAX
    requires Meanings(arena.nodes) <= universe && SubExprs(expr) <= universe
    requires |universe| <= U32_MAX
    modifies arena, intern
    ensures Consed(arena.nodes, intern.entries) && |arena.nodes| <= U32_MAX
    ensures old(arena.nodes) <= arena.nodes
    ensures id < |arena.nodes| && Unfold(arena.nodes, id) == expr
    ensures Meanings(arena.nodes) == old(Meanings(arena.nodes)) + SubExprs(expr)
    decreases expr
  {
    match expr
    case Primitive(primitive) =>
      id := InternAs(arena, intern, Node.Primitive(primitive), expr, universe);
    case Enum(variants) =>
      id := InternAs(arena, intern, Node.Enum(variants), expr, universe);
    case Optional(of) =>
      assert SubExprs(expr) == {expr} + SubExprs(of);
      var inner := BuildTypeExpr(arena, intern, of, universe);
      id := InternAs(arena, intern, Node.Optional(inner), expr, universe);
    case List(of, constraints) =>
      assert SubExprs(expr) == {expr} + SubExprs(of);
      var inner := BuildTypeExpr(arena, intern, of, universe);
      id := InternAs(arena, intern, Node.List(inner, constraints), expr, universe);
    case Dict(value, constraints) =>
      assert SubExprs(expr) == {expr} + SubExprs(value);
      var inner := BuildTypeExpr(arena, intern, value, universe);
      id := InternAs(arena, intern, Node.Dict(inner, constraints), expr, universe);
    case Struct(fields, extra) =>
      assert SubExprs(expr) == {expr} + FieldExprs(fields, |fields|);
      var structFields := BuildFields(arena, intern, expr, universe);
      id := InternAs(arena, intern, Node.Struct(structFields, extra), expr, universe);
  }

  /** The types of the first `n` fields, with all their parts. */
  ghost function FieldExprs(fields: seq<FieldExpr>, n: nat): set<TypeExpr>
    requires n <= |fields|
  {
    set i, s | 0 <= i < n && s in SubExprs(fields[i].ty) :: s
  }

  lemma FieldExprsStep(expr: TypeExpr, n: nat)
    requires expr.Struct? && n < |expr.fields|
    ensures SubExprs(expr.fields[n].ty) <= SubExprs(expr)
    ensures FieldExprs(expr.fields, n + 1) == FieldExprs(expr.fields, n) + SubExprs(expr.fields[n].ty)
  {
  }

  /** These struct fields stand for the first of the fields. */
  ghost predicate Built(nodes: seq<Node>, done: seq<StructField>, fields: seq<FieldExpr>)
    requires Layered(nodes)
  {
    && |done| <= |fields|
    && forall i | 0 <= i < |done| ::
         && done[i].node < |nodes|
         && fields[i] == FieldExpr(done[i].name, done[i].presence, Unfold(nodes, done[i].node))
  }

  lemma {:induction false} BuiltGrows(nodes: seq<Node>, more: seq<Node>, done: seq<StructField>, fields: seq<FieldExpr>,
                                      id: NodeId)
    requires nodes <= more && Layered(nodes) && Layered(more) && Built(nodes, done, fields)
    requires |done| < |fields| && id < |more| && Unfold(more, id) == fields[|done|].ty
    ensures Built(more, done + [StructField(fields[|done|].name, fields[|done|].presence, id)], fields)
  {
    forall i | 0 <= i < |done| ensures Unfold(more, done[i].node) == Unfold(nodes, done[i].node) {
      UnfoldStable(nodes, more, done[i].node);
    }
  }

  method BuildFields(arena: SchemaArena, intern: InternTable, expr: TypeExpr,
                     ghost universe: set<TypeExpr>)
    returns (structFields: seq<StructField>)
    requires Consed(arena.nodes, intern.entries) && |arena.nodes| <= U32_MAX
    requires expr.Struct?
    requires Meanings(arena.nodes) <= universe && SubExprs(expr) <= universe
    requires |universe| <= U32_MAX
    modifies arena, intern
    ensures Consed(arena.nodes, intern.entries) && |arena.nodes| <= U32_MAX
    ensures old(arena.nodes) <= arena.nodes
    ensures ChildrenBelow(Node.Struct(structFields, expr.extra), |arena.nodes|)
    ensures Encodes(arena.nodes, Node.Struct(structFields, expr.extra), expr)
    ensures Meanings(arena.nodes) == old(Meanings(arena.nodes)) + FieldExprs(expr.fields, |expr.fields|)
    decreases expr, 0
  {
    var fields := expr.fields;
    structFields := [];
    for n := 0 to |fields|
      invariant Consed(arena.nodes, intern.entries) && |arena.nodes| <= U32_MAX
      invariant old(arena.nodes) <= arena.nodes
      invariant Meanings(arena.nodes) <= universe
      invariant |structFields| == n && Built(arena.nodes, structFields, fields)
      invariant Meanings(arena.nodes) == old(Meanings(arena.nodes)) + FieldExprs(fields, n)
    {
      var field := fields[n];
      ghost var before := arena.nodes;
      FieldExprsStep(expr, n);
      var nodeId := BuildTypeExpr(arena, intern, field.ty, universe);
      BuiltGrows(before, arena.nodes, structFields, fields, nodeId);
      structFields := structFields + [StructField(field.name, field.presence, nodeId)];
    }
  }

  /** The whole guarantee of compilation: the arena is layered and free of
      duplicates, the root unfolds to the document, ids coincide exactly when
      meanings do, and there is one node per distinct sub-expression. */
  ghost predicate FaithfulIr(ir: SchemaIr, document: TypeExpr) {
    && Layered(ir.nodes) && ir.root < |ir.nodes| <= U32_MAX
    && Unfold(ir.nodes, ir.root) == document
    && (forall i: NodeId, j: NodeId | i < |ir.nodes| && j < |ir.nodes| ::
          Unfold(ir.nodes, i) == Unfold(ir.nodes, j) <==> i == j)
    && Meanings(ir.nodes) == SubExprs(document)
    && |ir.nodes| == |SubExprs(document)|
  }

  lemma ConsedIsFaithful(ir: SchemaIr, entries: map<Node, NodeId>, document: TypeExpr)
    requires Consed(ir.nodes, entries) && ir.root < |ir.nodes| <= U32_MAX
    requires Unfold(ir.nodes, ir.root) == document
    requires Meanings(ir.nodes) == SubExprs(document)
    ensures FaithfulIr(ir, document)
  {
    forall i: NodeId, j: NodeId | i < |ir.nodes| && j < |ir.nodes| && Unfold(ir.nodes, i) == Unfold(ir.nodes, j)
      ensures i == j
    {
      UnfoldInjective(ir.nodes, entries, i, j);
    }
    MeaningsCount(ir.nodes, entries, |ir.nodes|);
    assert ir.nodes[..|ir.nodes|] == ir.nodes;
  }

  method BuildIr(document: TypeExpr) returns (ir: SchemaIr)
    requires |SubExprs(document)| <= U32_MAX
    ensures FaithfulIr(ir, document)
  {
    var arena := new SchemaArena();
    var intern := new InternTable();
    ghost var none := Meanings(arena.nodes);
    assert none == {};
    var root := BuildTypeExpr(arena, intern, document, SubExprs(document));
    ir := SchemaIr(arena.nodes, root);
    assert Meanings(ir.nodes) == SubExprs(document);
    ConsedIsFaithful(ir, intern.entries, document);
  }
}
