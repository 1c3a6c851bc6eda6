/**
 * PrimitiveTypeAnnotator: a rewrite of the expression graph for data binding that wraps
 * every data node in a PrimitiveItem and replaces anyString by a string data node so
 * wrapped. Each reference, other-expression and element is processed once (the visited
 * set); each data node is wrapped once and the wrapper reused (the primitiveItems memo).
 */
module PrimitiveTypeAnnotators {
  import opened Wrappers
  import opened Datatypes
  import opened ExpressionGraphs

  /**
   * The datatype a data node's PrimitiveItem records: a value's base type, or the type
   * itself; none when it cannot be bound to data (`databindable` is the instanceof test).
   */
  function ItemType(dt: Datatype, databindable: Datatype -> bool): (r: Option<Datatype>)
    ensures r.Some? ==> databindable(r.value)
    ensures r.Some? ==> r.value == (if dt.ValueType? then dt.baseType else dt)
    ensures r.None? <==> !databindable(if dt.ValueType? then dt.baseType else dt)
  {
    var base := if dt.ValueType? then dt.baseType else dt;
    if databindable(base) then Some(base) else None
  }

  /** A later memo keeps every earlier entry. */
  ghost predicate MemoGrows(before: map<Id, Id>, after: map<Id, Id>)
  {
    forall k :: k in before ==> k in after && after[k] == before[k]
  }

  /** The memo entry for `k`, if any, is a PrimitiveItem wrapping data node `k` with the datatype ItemType gives. */
  ghost predicate MemoAt(nodes: map<Id, Node>, memo: map<Id, Id>, databindable: Datatype -> bool, k: Id)
  {
    k in memo ==>
      k in nodes && nodes[k].DataNode? && memo[k] in nodes
      && nodes[memo[k]].OtherNode?
      && nodes[memo[k]].payload == PrimitiveItem(ItemType(nodes[k].dt, databindable))
  }

  ghost predicate MemoValid(nodes: map<Id, Node>, memo: map<Id, Id>, databindable: Datatype -> bool)
  {
    forall k :: MemoAt(nodes, memo, databindable, k)
  }

  /** Rewrites keep data nodes and the payload of other nodes, so they keep the memo valid. */
  lemma MemoEvolves(nodes: map<Id, Node>, rank: map<Id, nat>, nodes': map<Id, Node>, rank': map<Id, nat>,
                    memo: map<Id, Id>, databindable: Datatype -> bool)
    requires MemoValid(nodes, memo, databindable) && Evolves(nodes, rank, nodes', rank')
    ensures MemoValid(nodes', memo, databindable)
  {
    forall k ensures MemoAt(nodes', memo, databindable, k) {
      assert MemoAt(nodes, memo, databindable, k);
      if k in memo {
        assert SameShape(nodes[k], nodes'[k]) && SameShape(nodes[memo[k]], nodes'[memo[k]]);
      }
    }
  }

  class PrimitiveTypeAnnotator {
    const g: Graph
    const databindable: Datatype -> bool
    var visited: set<Id>
    var primitiveItems: map<Id, Id>

    constructor(g: Graph, databindable: Datatype -> bool)
      ensures this.g == g && this.databindable == databindable
      ensures visited == {} && primitiveItems == map[]
    {
      this.g := g;
      this.databindable := databindable;
      visited := {};
      primitiveItems := map[];
    }

    /** The memo maps data nodes to PrimitiveItems wrapping them, with the datatype ItemType gives. */
    ghost predicate Ready()
      reads this, g
    {
      g.Valid() && MemoValid(g.nodes, primitiveItems, databindable)
    }

    /** exp.visit(this): dispatch on the kind of node. */
    method Visit(id: Id) returns (r: Id)
      requires Ready() && id in g.nodes
      modifies this`visited, this`primitiveItems, g
      ensures Ready() && g.elements == old(g.elements)
      ensures Evolves(old(g.nodes), old(g.rank), g.nodes, g.rank)
      ensures old(visited) <= visited && g.cuts <= old(g.cuts) + visited
      ensures MemoGrows(old(primitiveItems), primitiveItems)
      ensures r in g.nodes
      decreases g.cuts - visited, g.rank[id], 2
    {
      var n := g.nodes[id];
      ghost var c1: Id, c2: Id;
      match n {
        case ElementNode(_, _) => r, c1 := OnElement(id);
        case AttributeNode(_, _) => r, c1 := OnAttribute(id);
        case DataNode(_) => r := OnTypedString(id);
        case RefNode(_, _) => r, c1 := OnRef(id);
        case OtherNode(_, _) => r, c1 := OnOther(id);
        case NullSetNode => r := id;
        case EpsilonNode => r := id;
        case AnyStringNode => r := OnAnyString();
        case ChoiceNode(_, _) => r, c1, c2 := OnBinary(id);
        case SequenceNode(_, _) => r, c1, c2 := OnBinary(id);
        case InterleaveNode(_, _) => r, c1, c2 := OnBinary(id);
        case OneOrMoreNode(_) => r, c1 := OnOneOrMore(id);
      }
    }

    /**
     * A reference is processed the first time it is reached: its target is overwritten
     * with `child`, what visiting the old target returned.
     */
    method OnRef(id: Id) returns (r: Id, ghost child: Id)
      requires Ready() && id in g.nodes && g.nodes[id].RefNode?
      modifies this`visited, this`primitiveItems, g
      ensures Ready() && g.elements == old(g.elements)
      ensures Evolves(old(g.nodes), old(g.rank), g.nodes, g.rank)
      ensures old(visited) <= visited && g.cuts <= old(g.cuts) + visited
      ensures MemoGrows(old(primitiveItems), primitiveItems)
      ensures r in g.nodes
      ensures r == id && id in visited
      ensures old(id in visited) ==> g.nodes == old(g.nodes) && visited == old(visited) && primitiveItems == old(primitiveItems)
      ensures old(id !in visited) ==> child in g.nodes && g.nodes[id] == Redirected(old(g.nodes[id]), child)
      decreases g.cuts - visited, g.rank[id], 0
    {
      child := id;
      if id !in visited {
        visited := visited + {id};
        var n := g.nodes[id];
        g.ChildOf(id, n.target);
        var target := Visit(n.target);
        child := target;
        ghost var nodes1, rank1 := g.nodes, g.rank;
        g.SetChild(id, target);
        EvolvesTransitive(old(g.nodes), old(g.rank), nodes1, rank1, g.nodes, g.rank);
        MemoEvolves(nodes1, rank1, g.nodes, g.rank, primitiveItems, databindable);
      }
      r := id;
    }

    /**
     * An other-expression is processed the first time it is reached: its child is
     * overwritten with `child`, what visiting the old child returned.
     */
    method OnOther(id: Id) returns (r: Id, ghost child: Id)
      requires Ready() && id in g.nodes && g.nodes[id].OtherNode?
      modifies this`visited, this`primitiveItems, g
      ensures Ready() && g.elements == old(g.elements)
      ensures Evolves(old(g.nodes), old(g.rank), g.nodes, g.rank)
      ensures old(visited) <= visited && g.cuts <= old(g.cuts) + visited
      ensures MemoGrows(old(primitiveItems), primitiveItems)
      ensures r in g.nodes
      ensures r == id && id in visited
      ensures old(id in visited) ==> g.nodes == old(g.nodes) && visited == old(visited) && primitiveItems == old(primitiveItems)
      ensures old(id !in visited) ==> child in g.nodes && g.nodes[id] == Redirected(old(g.nodes[id]), child)
      decreases g.cuts - visited, g.rank[id], 0
    {
      child := id;
      if id !in visited {
        visited := visited + {id};
        var n := g.nodes[id];
        g.ChildOf(id, n.exp);
        var annotated := Visit(n.exp);
        child := annotated;
        ghost var nodes1, rank1 := g.nodes, g.rank;
        g.SetChild(id, annotated);
        EvolvesTransitive(old(g.nodes), old(g.rank), nodes1, rank1, g.nodes, g.rank);
        MemoEvolves(nodes1, rank1, g.nodes, g.rank, primitiveItems, databindable);
      }
      r := id;
    }

    /**
     * An element is processed the first time it is reached: its content model is
     * overwritten with `content`, what visiting the old content model returned.
     */
    method OnElement(id: Id) returns (r: Id, ghost content: Id)
      requires Ready() && id in g.nodes && g.nodes[id].ElementNode?
      modifies this`visited, this`primitiveItems, g
      ensures Ready() && g.elements == old(g.elements)
      ensures Evolves(old(g.nodes), old(g.rank), g.nodes, g.rank)
      ensures old(visited) <= visited && g.cuts <= old(g.cuts) + visited
      ensures MemoGrows(old(primitiveItems), primitiveItems)
      ensures r in g.nodes
      ensures r == id && id in visited
      ensures old(id in visited) ==> g.nodes == old(g.nodes) && visited == old(visited) && primitiveItems == old(primitiveItems)
      ensures old(id !in visited) ==> content in g.nodes && g.nodes[id] == ElementNode(old(g.nodes[id]).nameClass, content)
      decreases g.cuts - visited, g.rank[id], 0
    {
      content := id;
      if id !in visited {
        visited := visited + {id};
        var n := g.nodes[id];
        g.ChildOf(id, n.contentModel);
        var annotated := Visit(n.contentModel);
        content := annotated;
        ghost var nodes1, rank1 := g.nodes, g.rank;
        g.SetContentModel(id, annotated);
        EvolvesTransitive(old(g.nodes), old(g.rank), nodes1, rank1, g.nodes, g.rank);
        MemoEvolves(nodes1, rank1, g.nodes, g.rank, primitiveItems, databindable);
      }
      r := id;
    }

    /**
     * An attribute this pass produced is returned as it is; any other is rebuilt with
     * the same name class over its annotated content, and the new one is marked visited.
     * `content` is what visiting the old content returned.
     */
    method OnAttribute(id: Id) returns (r: Id, ghost content: Id)
      requires Ready() && id in g.nodes && g.nodes[id].AttributeNode?
      modifies this`visited, this`primitiveItems, g
      ensures Ready() && g.elements == old(g.elements)
      ensures Evolves(old(g.nodes), old(g.rank), g.nodes, g.rank)
      ensures old(visited) <= visited && g.cuts <= old(g.cuts) + visited
      ensures MemoGrows(old(primitiveItems), primitiveItems)
      ensures r in g.nodes && r in visited
      ensures old(id in visited) ==> r == id && g.nodes == old(g.nodes) && visited == old(visited) && primitiveItems == old(primitiveItems)
      ensures old(id !in visited) ==>
        r !in old(g.nodes) && content in g.nodes
        && g.nodes[r] == AttributeNode(old(g.nodes[id]).nameClass, content)
      decreases g.cuts - visited, g.rank[id], 0
    {
      content := id;
      if id in visited {
        return id, content;
      }
      var n := g.nodes[id];
      g.ChildOf(id, n.exp);
      var annotated := Visit(n.exp);
      content := annotated;
      ghost var nodes1, rank1 := g.nodes, g.rank;
      r := g.Create(AttributeNode(n.nameClass, annotated));
      EvolvesTransitive(old(g.nodes), old(g.rank), nodes1, rank1, g.nodes, g.rank);
      MemoEvolves(nodes1, rank1, g.nodes, g.rank, primitiveItems, databindable);
      visited := visited + {r};
    }

    /** anyString becomes a new string data node wrapped in a new PrimitiveItem, on every call. */
    method OnAnyString() returns (r: Id)
      requires Ready()
      modifies g
      ensures Ready() && g.elements == old(g.elements) && g.cuts == old(g.cuts)
      ensures Evolves(old(g.nodes), old(g.rank), g.nodes, g.rank)
      ensures r in g.nodes && r !in old(g.nodes)
      ensures g.nodes[r].OtherNode? && g.nodes[r].payload == PrimitiveItem(Some(StringType))
      ensures g.nodes[r].exp !in old(g.nodes) && g.nodes[r].exp in g.nodes && g.nodes[g.nodes[r].exp] == DataNode(StringType)
    {
      var data := g.Create(DataNode(StringType));
      MemoEvolves(old(g.nodes), old(g.rank), g.nodes, g.rank, primitiveItems, databindable);
      ghost var nodes1, rank1 := g.nodes, g.rank;
      r := g.Create(OtherNode(data, PrimitiveItem(Some(StringType))));
      EvolvesTransitive(old(g.nodes), old(g.rank), nodes1, rank1, g.nodes, g.rank);
      MemoEvolves(nodes1, rank1, g.nodes, g.rank, primitiveItems, databindable);
    }

    /** A data node is wrapped in a PrimitiveItem once; every later visit returns that same item. */
    method OnTypedString(id: Id) returns (r: Id)
      requires Ready() && id in g.nodes && g.nodes[id].DataNode?
      modifies this`primitiveItems, g
      ensures Ready() && g.elements == old(g.elements) && g.cuts == old(g.cuts)
      ensures Evolves(old(g.nodes), old(g.rank), g.nodes, g.rank)
      ensures MemoGrows(old(primitiveItems), primitiveItems)
      ensures r in g.nodes && id in primitiveItems && r == primitiveItems[id]
      ensures old(id in primitiveItems) ==> r == old(primitiveItems[id]) && g.nodes == old(g.nodes) && primitiveItems == old(primitiveItems)
      ensures old(id !in primitiveItems) ==>
        r !in old(g.nodes) && primitiveItems == old(primitiveItems)[id := r]
        && g.nodes[r] == OtherNode(id, PrimitiveItem(ItemType(g.nodes[id].dt, databindable)))
    {
      if id in primitiveItems {
        assert MemoAt(g.nodes, primitiveItems, databindable, id);
        return primitiveItems[id];
      }
      var item := PrimitiveItem(ItemType(g.nodes[id].dt, databindable));
      r := g.Create(OtherNode(id, item));
      MemoEvolves(old(g.nodes), old(g.rank), g.nodes, g.rank, primitiveItems, databindable);
      primitiveItems := primitiveItems[id := r];
      forall k ensures MemoAt(g.nodes, primitiveItems, databindable, k) {
        if k != id { assert MemoAt(g.nodes, old(primitiveItems), databindable, k); }
      }
    }

    /**
     * What the cloner does with a choice, sequence or interleave: rebuild it over the
     * annotated children `left` and `right`, what visiting the old children returned.
     */
    method OnBinary(id: Id) returns (r: Id, ghost left: Id, ghost right: Id)
      requires Ready() && id in g.nodes && IsCombinator(g.nodes[id]) && !g.nodes[id].OneOrMoreNode?
      modifies this`visited, this`primitiveItems, g
      ensures Ready() && g.elements == old(g.elements)
      ensures Evolves(old(g.nodes), old(g.rank), g.nodes, g.rank)
      ensures old(visited) <= visited && g.cuts <= old(g.cuts) + visited
      ensures MemoGrows(old(primitiveItems), primitiveItems)
      ensures r in g.nodes && r !in old(g.nodes) && left in g.nodes && right in g.nodes
      ensures g.nodes[r] == Rebuilt(old(g.nodes[id]), [left, right])
      decreases g.cuts - visited, g.rank[id], 1
    {
      var n := g.nodes[id];
      var l, rt := VisitBoth(id);
      left, right := l, rt;
      ghost var nodes1, rank1 := g.nodes, g.rank;
      r := g.Create(Rebuilt(n, [l, rt]));
      EvolvesTransitive(old(g.nodes), old(g.rank), nodes1, rank1, g.nodes, g.rank);
      MemoEvolves(nodes1, rank1, g.nodes, g.rank, primitiveItems, databindable);
    }

    /** The two children of a binary node, annotated left first. */
    method VisitBoth(id: Id) returns (left: Id, right: Id)
      requires Ready() && id in g.nodes && IsCombinator(g.nodes[id]) && !g.nodes[id].OneOrMoreNode?
      modifies this`visited, this`primitiveItems, g
      ensures Ready() && g.elements == old(g.elements)
      ensures Evolves(old(g.nodes), old(g.rank), g.nodes, g.rank)
      ensures old(visited) <= visited && g.cuts <= old(g.cuts) + visited
      ensures MemoGrows(old(primitiveItems), primitiveItems)
      ensures id in g.nodes && g.nodes[id] == old(g.nodes[id])
      ensures left in g.nodes && right in g.nodes
      decreases g.cuts - visited, g.rank[id], 0
    {
      var n := g.nodes[id];
      g.ChildOf(id, n.left);
      g.ChildOf(id, n.right);
      left := Visit(n.left);
      ghost var nodes1, rank1 := g.nodes, g.rank;
      right := Visit(n.right);
      EvolvesTransitive(old(g.nodes), old(g.rank), nodes1, rank1, g.nodes, g.rank);
    }

    /** What the cloner does with a oneOrMore: rebuild it over `body`, what visiting the old body returned. */
    method OnOneOrMore(id: Id) returns (r: Id, ghost body: Id)
      requires Ready() && id in g.nodes && g.nodes[id].OneOrMoreNode?
      modifies this`visited, this`primitiveItems, g
      ensures Ready() && g.elements == old(g.elements)
      ensures Evolves(old(g.nodes), old(g.rank), g.nodes, g.rank)
      ensures old(visited) <= visited && g.cuts <= old(g.cuts) + visited
      ensures MemoGrows(old(primitiveItems), primitiveItems)
      ensures r in g.nodes && r !in old(g.nodes) && body in g.nodes && g.nodes[r] == OneOrMoreNode(body)
      decreases g.cuts - visited, g.rank[id], 0
    {
      var n := g.nodes[id];
      g.ChildOf(id, n.body);
      var annotated := Visit(n.body);
      body := annotated;
      ghost var nodes1, rank1 := g.nodes, g.rank;
      r := g.Create(OneOrMoreNode(annotated));
      EvolvesTransitive(old(g.nodes), old(g.rank), nodes1, rank1, g.nodes, g.rank);
      MemoEvolves(nodes1, rank1, g.nodes, g.rank, primitiveItems, databindable);
    }
  }
}
