/** How much work validation does on a shared arena: the visits made from a
    node are bounded by its id and the size of the value, however large the
    unshared type is. */
module WorkBound {
  import opened Values
  import opened Schema
  import opened HashConsing

  function SumFirst(counts: seq<nat>, n: nat): nat
    requires n <= |counts|
  {
    if n == 0 then 0 else SumFirst(counts, n - 1) + counts[n - 1]
  }

  function Sum(counts: seq<nat>): nat {
    SumFirst(counts, |counts|)
  }

  /** Number of values in a value tree. */
  function Size(v: Value): (n: nat)
    ensures n > 0
  {
    match v
    case List(items) => 1 + Sum(ItemSizes(items))
    case Dict(entries) => 1 + Sum(EntrySizes(entries))
    case _ => 1
  }

  function ItemSizes(items: seq<Value>): seq<nat> {
    seq(|items|, i requires 0 <= i < |items| => Size(items[i]))
  }

  function EntrySizes(entries: seq<Entry>): seq<nat> {
    seq(|entries|, i requires 0 <= i < |entries| => Size(entries[i].value))
  }

  function ItemVisits(nodes: seq<Node>, of: NodeId, items: seq<Value>): seq<nat>
    requires Layered(nodes) && of < |nodes|
    decreases of, 2
  {
    seq(|items|, i requires 0 <= i < |items| => Visits(nodes, of, items[i]))
  }

  function EntryVisits(nodes: seq<Node>, of: NodeId, entries: seq<Entry>): seq<nat>
    requires Layered(nodes) && of < |nodes|
    decreases of, 2
  {
    seq(|entries|, i requires 0 <= i < |entries| => Visits(nodes, of, entries[i].value))
  }

  function FieldVisit(nodes: seq<Node>, field: StructField, entries: seq<Entry>): nat
    requires Layered(nodes) && field.node < |nodes|
    decreases field.node, 2
  {
    match DictFind(entries, field.name)
    case Some(x) => Visits(nodes, field.node, x)
    case None => 0
  }

  function FieldVisits(nodes: seq<Node>, id: NodeId, entries: seq<Entry>): seq<nat>
    requires Layered(nodes) && id < |nodes| && nodes[id].Struct?
    decreases id, 0
  {
    assert ChildrenBelow(nodes[id], id);
    var fields := nodes[id].fields;
    seq(|fields|, i requires 0 <= i < |fields| => FieldVisit(nodes, fields[i], entries))
  }

  /** Calls of the engine's node dispatch made for one value at one node. */
  function Visits(nodes: seq<Node>, id: NodeId, v: Value): nat
    requires Layered(nodes) && id < |nodes|
    decreases id, 1
  {
    assert ChildrenBelow(nodes[id], id);
    1 +
    match nodes[id]
    case Primitive(_) => 0
    case Enum(_) => 0
    case Optional(of) => if v.Null? then 0 else Visits(nodes, of, v)
    case List(of, _) => if v.List? then Sum(ItemVisits(nodes, of, v.items)) else 0
    case Dict(of, _) => if v.Dict? then Sum(EntryVisits(nodes, of, v.entries)) else 0
    case Struct(_, _) => if v.Dict? then Sum(FieldVisits(nodes, id, v.entries)) else 0
  }

  /** No struct node declares a name twice. */
  ghost predicate NodesNamedApart(nodes: seq<Node>) {
    forall i | 0 <= i < |nodes| && nodes[i].Struct? :: Distinct(NodeNames(nodes[i].fields))
  }

  lemma {:induction false} SumScaled(counts: seq<nat>, sizes: seq<nat>, k: nat, n: nat)
    requires |counts| == |sizes| && n <= |counts|
    requires forall i | 0 <= i < |counts| :: counts[i] <= k * sizes[i]
    ensures SumFirst(counts, n) <= k * SumFirst(sizes, n)
  {
    if n > 0 {
      SumScaled(counts, sizes, k, n - 1);
      assert k * (SumFirst(sizes, n - 1) + sizes[n - 1]) == k * SumFirst(sizes, n - 1) + k * sizes[n - 1];
    }
  }

  /** Removing one entry removes its size. */
  lemma {:induction false} SumRemove(entries: seq<Entry>, j: nat)
    requires j < |entries|
    ensures Sum(EntrySizes(entries)) == Size(entries[j].value) + Sum(EntrySizes(entries[..j] + entries[j + 1..]))
    decreases |entries|
  {
    var last := |entries| - 1;
    SumSnoc(entries);
    if j == last {
      assert entries[..j] + entries[j + 1..] == entries[..last];
    } else {
      SumRemove(entries[..last], j);
      var rest := entries[..j] + entries[j + 1..];
      SumSnoc(rest);
      assert rest[..|rest| - 1] == entries[..last][..j] + entries[..last][j + 1..];
    }
  }

  lemma SumSnoc(entries: seq<Entry>)
    requires entries != []
    ensures Sum(EntrySizes(entries))
         == Sum(EntrySizes(entries[..|entries| - 1])) + Size(entries[|entries| - 1].value)
  {
    SumPrefix(EntrySizes(entries), EntrySizes(entries[..|entries| - 1]), |entries| - 1);
  }

  lemma {:induction false} SumPrefix(a: seq<nat>, b: seq<nat>, n: nat)
    requires n <= |a| && n <= |b| && a[..n] == b[..n]
    ensures SumFirst(a, n) == SumFirst(b, n)
  {
    if n > 0 {
      assert a[..n - 1] == a[..n][..n - 1] && b[..n - 1] == b[..n][..n - 1];
      assert a[n - 1] == a[..n][n - 1] && b[n - 1] == b[..n][n - 1];
      SumPrefix(a, b, n - 1);
    }
  }

  /** Total size of the values that distinct names find in a dict. */
  function FoundSize(names: seq<string>, entries: seq<Entry>, n: nat): nat
    requires n <= |names|
  {
    if n == 0 then 0
    else
      FoundSize(names, entries, n - 1) +
      match DictFind(entries, names[n - 1])
      case Some(x) => Size(x)
      case None => 0
  }

  lemma {:induction false} FindAfterRemove(entries: seq<Entry>, j: nat, name: string)
    requires j < |entries| && entries[j].key != name
    ensures DictFind(entries[..j] + entries[j + 1..], name) == DictFind(entries, name)
  {
    if j == 0 {
      assert entries[..0] + entries[1..] == entries[1..];
    } else {
      FindAfterRemove(entries[1..], j - 1, name);
      assert (entries[..j] + entries[j + 1..])[1..] == entries[1..][..j - 1] + entries[1..][j..];
    }
  }

  lemma {:induction false} FoundAfterRemove(names: seq<string>, entries: seq<Entry>, n: nat, j: nat)
    requires n <= |names| && j < |entries| && entries[j].key !in names[..n]
    ensures FoundSize(names, entries[..j] + entries[j + 1..], n) == FoundSize(names, entries, n)
  {
    if n > 0 {
      assert names[..n - 1] == names[..n][..n - 1] && names[n - 1] == names[..n][n - 1];
      FoundAfterRemove(names, entries, n - 1, j);
      FindAfterRemove(entries, j, names[n - 1]);
    }
  }

  /** Distinct names find disjoint entries. */
  lemma {:induction false} FoundFits(names: seq<string>, entries: seq<Entry>, n: nat)
    requires Distinct(names) && n <= |names|
    ensures FoundSize(names, entries, n) <= Sum(EntrySizes(entries))
  {
    if n > 0 {
      var name := names[n - 1];
      if DictFind(entries, name).None? {
        FoundFits(names, entries, n - 1);
      } else {
        var j := DictFindIndex(entries, name);
        SumRemove(entries, j);
        FoundFits(names, entries[..j] + entries[j + 1..], n - 1);
        assert name !in names[..n - 1];
        FoundAfterRemove(names, entries, n - 1, j);
      }
    }
  }

  lemma Grow(a: nat, b: nat, s: nat)
    requires a <= b
    ensures a * s <= b * s
  {
  }

  lemma OneMore(id: nat, s: nat)
    ensures 1 + id * s <= (id + 1) * (1 + s)
  {
    assert (id + 1) * (1 + s) == id + id * s + 1 + s;
  }

  lemma AddScaled(id: nat, a: nat, b: nat)
    ensures id * (a + b) == id * a + id * b
  {
  }

  lemma {:induction false} FieldsBound(nodes: seq<Node>, id: NodeId, entries: seq<Entry>, n: nat)
    requires Layered(nodes) && NodesNamedApart(nodes) && id < |nodes| && nodes[id].Struct?
    requires n <= |nodes[id].fields|
    ensures SumFirst(FieldVisits(nodes, id, entries), n) <= id * FoundSize(NodeNames(nodes[id].fields), entries, n)
    decreases id, 0, n
  {
    if n > 0 {
      FieldsBound(nodes, id, entries, n - 1);
      FieldBound(nodes, id, entries, n - 1);
      var names, name := NodeNames(nodes[id].fields), nodes[id].fields[n - 1].name;
      assert names[n - 1] == name;
      match DictFind(entries, name)
      case Some(x) => AddScaled(id, FoundSize(names, entries, n - 1), Size(x));
      case None =>
    }
  }

  lemma {:induction false} FieldBound(nodes: seq<Node>, id: NodeId, entries: seq<Entry>, k: nat)
    requires Layered(nodes) && NodesNamedApart(nodes) && id < |nodes| && nodes[id].Struct?
    requires k < |nodes[id].fields|
    ensures match DictFind(entries, nodes[id].fields[k].name)
            case Some(x) => FieldVisits(nodes, id, entries)[k] <= id * Size(x)
            case None => FieldVisits(nodes, id, entries)[k] == 0
    decreases id, 0, 0
  {
    assert ChildrenBelow(nodes[id], id);
    var field := nodes[id].fields[k];
    assert FieldVisits(nodes, id, entries)[k] == FieldVisit(nodes, field, entries);
    if DictFind(entries, field.name).Some? {
      var x := DictFind(entries, field.name).value;
      VisitsBounded(nodes, field.node, x);
      Grow(field.node + 1, id, Size(x));
    }
  }

  lemma {:induction false} ListBound(nodes: seq<Node>, id: NodeId, of: NodeId, items: seq<Value>)
    requires Layered(nodes) && NodesNamedApart(nodes) && of < id < |nodes|
    ensures Sum(ItemVisits(nodes, of, items)) <= id * Sum(ItemSizes(items))
    decreases id, 0
  {
    var sizes := ItemSizes(items);
    forall i | 0 <= i < |items| ensures ItemVisits(nodes, of, items)[i] <= id * sizes[i] {
      VisitsBounded(nodes, of, items[i]);
      Grow(of + 1, id, sizes[i]);
    }
    SumScaled(ItemVisits(nodes, of, items), sizes, id, |sizes|);
  }

  lemma {:induction false} DictBound(nodes: seq<Node>, id: NodeId, of: NodeId, entries: seq<Entry>)
    requires Layered(nodes) && NodesNamedApart(nodes) && of < id < |nodes|
    ensures Sum(EntryVisits(nodes, of, entries)) <= id * Sum(EntrySizes(entries))
    decreases id, 0
  {
    var sizes := EntrySizes(entries);
    forall i | 0 <= i < |entries| ensures EntryVisits(nodes, of, entries)[i] <= id * sizes[i] {
      VisitsBounded(nodes, of, entries[i].value);
      Grow(of + 1, id, sizes[i]);
    }
    SumScaled(EntryVisits(nodes, of, entries), sizes, id, |sizes|);
  }

  lemma {:induction false} StructBound(nodes: seq<Node>, id: NodeId, entries: seq<Entry>)
    requires Layered(nodes) && NodesNamedApart(nodes) && id < |nodes| && nodes[id].Struct?
    ensures Sum(FieldVisits(nodes, id, entries)) <= id * Sum(EntrySizes(entries))
    decreases id, 0
  {
    var names := NodeNames(nodes[id].fields);
    FieldsBound(nodes, id, entries, |names|);
    FoundFits(names, entries, |names|);
    Scale(id, FoundSize(names, entries, |names|), Sum(EntrySizes(entries)));
  }

  lemma Scale(k: nat, a: nat, b: nat)
    requires a <= b
    ensures k * a <= k * b
  {
  }

  lemma {:induction false} ListVisits(nodes: seq<Node>, id: NodeId, v: Value)
    requires Layered(nodes) && NodesNamedApart(nodes) && id < |nodes| && nodes[id].List? && v.List?
    ensures Visits(nodes, id, v) <= (id + 1) * Size(v)
    decreases id, 1
  {
    assert ChildrenBelow(nodes[id], id);
    ListBound(nodes, id, nodes[id].of, v.items);
    OneBelow(id, Size(v), Sum(ItemVisits(nodes, nodes[id].of, v.items)));
  }

  lemma {:induction false} DictVisits(nodes: seq<Node>, id: NodeId, v: Value)
    requires Layered(nodes) && NodesNamedApart(nodes) && id < |nodes| && nodes[id].Dict? && v.Dict?
    ensures Visits(nodes, id, v) <= (id + 1) * Size(v)
    decreases id, 1
  {
    assert ChildrenBelow(nodes[id], id);
    DictBound(nodes, id, nodes[id].value, v.entries);
    OneBelow(id, Size(v), Sum(EntryVisits(nodes, nodes[id].value, v.entries)));
  }

  lemma {:induction false} StructVisits(nodes: seq<Node>, id: NodeId, v: Value)
    requires Layered(nodes) && NodesNamedApart(nodes) && id < |nodes| && nodes[id].Struct? && v.Dict?
    ensures Visits(nodes, id, v) <= (id + 1) * Size(v)
    decreases id, 1
  {
    StructBound(nodes, id, v.entries);
    OneBelow(id, Size(v), Sum(FieldVisits(nodes, id, v.entries)));
  }

  lemma {:induction false} OptionalVisits(nodes: seq<Node>, id: NodeId, v: Value)
    requires Layered(nodes) && NodesNamedApart(nodes) && id < |nodes| && nodes[id].Optional?
    ensures Visits(nodes, id, v) <= (id + 1) * Size(v)
    decreases id, 1
  {
    assert ChildrenBelow(nodes[id], id);
    VisitsBounded(nodes, nodes[id].of, v);
    OneAbove(nodes[id].of + 1, id, Size(v), Visits(nodes, nodes[id].of, v));
  }

  /** The visits from a node never exceed its id plus one, times the size of
      the value. */
  lemma {:induction false} VisitsBounded(nodes: seq<Node>, id: NodeId, v: Value)
    requires Layered(nodes) && NodesNamedApart(nodes) && id < |nodes|
    ensures Visits(nodes, id, v) <= (id + 1) * Size(v)
    decreases id, 2
  {
    var node := nodes[id];
    if node.Optional? {
      OptionalVisits(nodes, id, v);
    } else if node.List? && v.List? {
      ListVisits(nodes, id, v);
    } else if node.Dict? && v.Dict? {
      DictVisits(nodes, id, v);
    } else if node.Struct? && v.Dict? {
      StructVisits(nodes, id, v);
    } else {
      OneBelow(id, Size(v), 0);
    }
  }

  lemma OneBelow(id: nat, size: nat, below: nat)
    requires size > 0 && below <= id * (size - 1)
    ensures 1 + below <= (id + 1) * size
  {
    OneMore(id, size - 1);
  }

  lemma OneAbove(child: nat, id: nat, size: nat, below: nat)
    requires size > 0 && child <= id && below <= child * size
    ensures 1 + below <= (id + 1) * size
  {
    Grow(child, id, size);
    AddScaled(size, id, 1);
  }

  lemma {:induction false} PartsNamedApart(ty: TypeExpr, part: TypeExpr)
    requires NamesDistinct(ty) && part in SubExprs(ty)
    ensures NamesDistinct(part)
  {
    if part != ty {
      match ty
      case Optional(of) => PartsNamedApart(of, part);
      case List(of, _) => PartsNamedApart(of, part);
      case Dict(value, _) => PartsNamedApart(value, part);
      case Struct(fields, _) =>
        var i :| 0 <= i < |fields| && part in SubExprs(fields[i].ty);
        PartsNamedApart(fields[i].ty, part);
    }
  }

  /** A document that names fields apart compiles to nodes that do. */
  lemma CompiledNamedApart(ir: SchemaIr, document: TypeExpr)
    requires FaithfulIr(ir, document) && NamesDistinct(document)
    ensures NodesNamedApart(ir.nodes)
  {
    forall i: NodeId | i < |ir.nodes| && ir.nodes[i].Struct? ensures Distinct(NodeNames(ir.nodes[i].fields)) {
      NodeNamedApart(ir, document, i);
    }
  }

  lemma NodeNamedApart(ir: SchemaIr, document: TypeExpr, i: NodeId)
    requires FaithfulIr(ir, document) && NamesDistinct(document)
    requires i < |ir.nodes| && ir.nodes[i].Struct?
    ensures Distinct(NodeNames(ir.nodes[i].fields))
  {
    assert ChildrenBelow(ir.nodes[i], i);
    var ty := Unfold(ir.nodes, i);
    assert ty in Meanings(ir.nodes);
    PartsNamedApart(document, ty);
    assert FieldNames(ty.fields) == NodeNames(ir.nodes[i].fields);
  }
}
