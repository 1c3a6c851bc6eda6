/**
 * NoneTypeRemover: a rewrite of the expression graph that turns RELAX's "none" datatype
 * into nullSet before instances are generated. It prunes the attributes that become
 * unsatisfiable, drops other-expression wrappers, and visits each element once, so it
 * terminates on a grammar whose cycles pass through elements.
 */
module NoneTypeRemovers {
  import opened Datatypes
  import opened ExpressionGraphs

  /** What the rewrite never yields: an other-expression wrapper or a "none" data node. */
  predicate Clean(n: Node)
  {
    !n.OtherNode? && n != DataNode(NoneType)
  }

  class NoneTypeRemover {
    const g: Graph
    var visitedElements: set<Id>

    constructor(g: Graph)
      ensures this.g == g && visitedElements == {}
    {
      this.g := g;
      visitedElements := {};
    }

    /** The graph is well formed and its only cuts are elements: every cycle passes through an element. */
    ghost predicate Ready()
      reads this, g
    {
      g.Valid() && g.cuts == g.elements
    }

    /** exp.visit(this): dispatch on the kind of node. */
    method Visit(id: Id) returns (r: Id)
      requires Ready() && id in g.nodes
      modifies this`visitedElements, g
      ensures Ready() && g.elements == old(g.elements)
      ensures Evolves(old(g.nodes), old(g.rank), g.nodes, g.rank)
      ensures old(visitedElements) <= visitedElements
      ensures r in g.nodes && g.rank[r] <= old(g.rank[id]) && Clean(g.nodes[r])
      decreases g.elements - visitedElements, g.rank[id], 2
    {
      var n := g.nodes[id];
      ghost var c1: Id, c2: Id;
      match n {
        case ElementNode(_, _) => r, c1 := OnElement(id);
        case AttributeNode(_, _) => r, c1 := OnAttribute(id);
        case DataNode(_) => r := OnData(id);
        case RefNode(_, _) => r, c1 := OnRef(id);
        case OtherNode(_, _) => r := OnOther(id);
        case NullSetNode => r := id;
        case EpsilonNode => r := id;
        case AnyStringNode => r := id;
        case ChoiceNode(_, _) => r, c1, c2 := OnBinary(id);
        case SequenceNode(_, _) => r, c1, c2 := OnBinary(id);
        case InterleaveNode(_, _) => r, c1, c2 := OnBinary(id);
        case OneOrMoreNode(_) => r, c1 := OnOneOrMore(id);
      }
    }

    /**
     * An element's content model is rewritten in place the first time it is reached; a
     * revisited element is returned as it is. `content` is what visiting the old content model returned.
     */
    method OnElement(id: Id) returns (r: Id, ghost content: Id)
      requires Ready() && id in g.nodes && g.nodes[id].ElementNode?
      modifies this`visitedElements, g
      ensures Ready() && g.elements == old(g.elements)
      ensures Evolves(old(g.nodes), old(g.rank), g.nodes, g.rank)
      ensures old(visitedElements) <= visitedElements
      ensures r in g.nodes && g.rank[r] <= old(g.rank[id]) && Clean(g.nodes[r])
      ensures r == id && id in visitedElements
      ensures old(id in visitedElements) ==> g.nodes == old(g.nodes) && visitedElements == old(visitedElements)
      ensures old(id !in visitedElements) ==>
        content in g.nodes && Clean(g.nodes[content])
        && g.nodes[id] == ElementNode(old(g.nodes[id]).nameClass, content)
      decreases g.elements - visitedElements, g.rank[id], 0
    {
      content := id;
      if id in visitedElements {
        return id, content;
      }
      visitedElements := visitedElements + {id};
      var rewritten := g.nodes[id].contentModel;
      g.ChildOf(id, rewritten);
      rewritten := Visit(rewritten);
      content := rewritten;
      g.SetContentModel(id, rewritten);
      r := id;
    }

    /**
     * An attribute whose rewritten content is nullSet can never be satisfied and becomes
     * epsilon; otherwise it is rebuilt with the same name class over the rewritten content.
     * `content` is what visiting the old content returned.
     */
    method OnAttribute(id: Id) returns (r: Id, ghost content: Id)
      requires Ready() && id in g.nodes && g.nodes[id].AttributeNode?
      modifies this`visitedElements, g
      ensures Ready() && g.elements == old(g.elements)
      ensures Evolves(old(g.nodes), old(g.rank), g.nodes, g.rank)
      ensures old(visitedElements) <= visitedElements
      ensures r in g.nodes && g.rank[r] <= old(g.rank[id]) && Clean(g.nodes[r])
      ensures content in g.nodes && g.rank[content] < old(g.rank[id]) && Clean(g.nodes[content])
      ensures r == EpsilonId <==> content == NullSetId
      ensures r != EpsilonId ==> r !in old(g.nodes) && g.nodes[r] == AttributeNode(old(g.nodes[id]).nameClass, content)
      decreases g.elements - visitedElements, g.rank[id], 0
    {
      var n := g.nodes[id];
      g.ChildOf(id, n.exp);
      var rewritten := Visit(n.exp);
      content := rewritten;
      if rewritten == NullSetId {
        r := EpsilonId;
      } else {
        ghost var nodes, rank := g.nodes, g.rank;
        var a := AttributeNode(n.nameClass, rewritten);
        NewRankBound(g.rank, a, g.rank[id]);
        r := g.Create(a);
        EvolvesTransitive(old(g.nodes), old(g.rank), nodes, rank, g.nodes, g.rank);
      }
    }

    /** A "none" data node becomes nullSet; any other data node is kept. */
    method OnData(id: Id) returns (r: Id)
      requires Ready() && id in g.nodes && g.nodes[id].DataNode?
      ensures r in g.nodes && g.rank[r] <= g.rank[id] && Clean(g.nodes[r])
      ensures r == if g.nodes[id].dt == NoneType then NullSetId else id
    {
      if g.nodes[id].dt == NoneType {
        r := NullSetId;
      } else {
        r := id;
      }
    }

    /** A reference keeps its identity; its target is overwritten with `target`, what visiting the old target returned. */
    method OnRef(id: Id) returns (r: Id, ghost target: Id)
      requires Ready() && id in g.nodes && g.nodes[id].RefNode?
      modifies this`visitedElements, g
      ensures Ready() && g.elements == old(g.elements)
      ensures Evolves(old(g.nodes), old(g.rank), g.nodes, g.rank)
      ensures old(visitedElements) <= visitedElements
      ensures r in g.nodes && g.rank[r] <= old(g.rank[id]) && Clean(g.nodes[r])
      ensures r == id && target in g.nodes && Clean(g.nodes[target])
      ensures g.nodes[id] == Redirected(old(g.nodes[id]), target)
      decreases g.elements - visitedElements, g.rank[id], 0
    {
      var n := g.nodes[id];
      g.ChildOf(id, n.target);
      var rewritten := Visit(n.target);
      target := rewritten;
      ghost var nodes, rank := g.nodes, g.rank;
      g.SetChild(id, rewritten);
      EvolvesTransitive(old(g.nodes), old(g.rank), nodes, rank, g.nodes, g.rank);
      r := id;
    }

    /** An other-expression is replaced by its rewritten child. */
    method OnOther(id: Id) returns (r: Id)
      requires Ready() && id in g.nodes && g.nodes[id].OtherNode?
      modifies this`visitedElements, g
      ensures Ready() && g.elements == old(g.elements)
      ensures Evolves(old(g.nodes), old(g.rank), g.nodes, g.rank)
      ensures old(visitedElements) <= visitedElements
      ensures r in g.nodes && g.rank[r] < old(g.rank[id]) && Clean(g.nodes[r])
      decreases g.elements - visitedElements, g.rank[id], 0
    {
      var n := g.nodes[id];
      g.ChildOf(id, n.exp);
      r := Visit(n.exp);
    }

    /**
     * What the cloner does with a choice, sequence or interleave: rebuild it over the
     * rewritten children `left` and `right`, what visiting the old children returned.
     */
    method OnBinary(id: Id) returns (r: Id, ghost left: Id, ghost right: Id)
      requires Ready() && id in g.nodes && IsCombinator(g.nodes[id]) && !g.nodes[id].OneOrMoreNode?
      modifies this`visitedElements, g
      ensures Ready() && g.elements == old(g.elements)
      ensures Evolves(old(g.nodes), old(g.rank), g.nodes, g.rank)
      ensures old(visitedElements) <= visitedElements
      ensures r in g.nodes && g.rank[r] <= old(g.rank[id]) && Clean(g.nodes[r])
      ensures left in g.nodes && g.rank[left] < old(g.rank[id]) && Clean(g.nodes[left])
      ensures right in g.nodes && g.rank[right] < old(g.rank[id]) && Clean(g.nodes[right])
      ensures r !in old(g.nodes) && g.nodes[r] == Rebuilt(old(g.nodes[id]), [left, right])
      decreases g.elements - visitedElements, g.rank[id], 1
    {
      var n := g.nodes[id];
      var l, rt := VisitBoth(id);
      left, right := l, rt;
      var rebuilt := Rebuilt(n, [l, rt]);
      ghost var nodes1, rank1 := g.nodes, g.rank;
      NewRankBound(g.rank, rebuilt, g.rank[id]);
      r := g.Create(rebuilt);
      EvolvesTransitive(old(g.nodes), old(g.rank), nodes1, rank1, g.nodes, g.rank);
    }

    /** The two children of a binary node, rewritten left first. */
    method VisitBoth(id: Id) returns (left: Id, right: Id)
      requires Ready() && id in g.nodes && IsCombinator(g.nodes[id]) && !g.nodes[id].OneOrMoreNode?
      modifies this`visitedElements, g
      ensures Ready() && g.elements == old(g.elements)
      ensures Evolves(old(g.nodes), old(g.rank), g.nodes, g.rank)
      ensures old(visitedElements) <= visitedElements
      ensures id in g.nodes && g.nodes[id] == old(g.nodes[id])
      ensures left in g.nodes && g.rank[left] < g.rank[id] && Clean(g.nodes[left])
      ensures right in g.nodes && g.rank[right] < g.rank[id] && Clean(g.nodes[right])
      decreases g.elements - visitedElements, g.rank[id], 0
    {
      var n := g.nodes[id];
      g.ChildOf(id, n.left);
      g.ChildOf(id, n.right);
      left := Visit(n.left);
      ghost var nodes1, rank1 := g.nodes, g.rank;
      right := Visit(n.right);
      EvolvesTransitive(old(g.nodes), old(g.rank), nodes1, rank1, g.nodes, g.rank);
    }

    /** What the cloner does with a oneOrMore: rebuild it over `body`, what visiting the old body returned. */
    method OnOneOrMore(id: Id) returns (r: Id, ghost body: Id)
      requires Ready() && id in g.nodes && g.nodes[id].OneOrMoreNode?
      modifies this`visitedElements, g
      ensures Ready() && g.elements == old(g.elements)
      ensures Evolves(old(g.nodes), old(g.rank), g.nodes, g.rank)
      ensures old(visitedElements) <= visitedElements
      ensures r in g.nodes && g.rank[r] <= old(g.rank[id]) && Clean(g.nodes[r])
      ensures body in g.nodes && g.rank[body] < old(g.rank[id]) && Clean(g.nodes[body])
      ensures r !in old(g.nodes) && g.nodes[r] == OneOrMoreNode(body)
      decreases g.elements - visitedElements, g.rank[id], 0
    {
      var n := g.nodes[id];
      g.ChildOf(id, n.body);
      var rewritten := Visit(n.body);
      body := rewritten;
      ghost var nodes1, rank1 := g.nodes, g.rank;
      NewRankBound(g.rank, OneOrMoreNode(rewritten), g.rank[id]);
      r := g.Create(OneOrMoreNode(rewritten));
      EvolvesTransitive(old(g.nodes), old(g.rank), nodes1, rank1, g.nodes, g.rank);
    }
  }
}
