/**
 * The grammar as a mutable expression graph, as the grammar-rewriting visitors see it.
 * Nodes live in an arena indexed by `Id`; element and reference nodes are updated in
 * place, and every other node is immutable once created. The three constants nullSet,
 * epsilon and anyString have fixed ids.
 *
 * Cycles pass through element nodes only: each node other than an element has a rank
 * greater than its children's, which bounds the recursion of a visitor between two
 * element nodes.
 */
module ExpressionGraphs {
  import opened Wrappers
  import opened NameClasses
  import opened Datatypes

  type Id = nat

  const NullSetId: Id := 0
  const EpsilonId: Id := 1
  const AnyStringId: Id := 2

  /** What an OtherExp carries: nothing in general, or a PrimitiveItem's datatype (null when not databindable). */
  datatype Payload = Plain | PrimitiveItem(itemType: Option<Datatype>)

  datatype Node =
    | NullSetNode
    | EpsilonNode
    | AnyStringNode
    | ChoiceNode(left: Id, right: Id)
    | SequenceNode(left: Id, right: Id)
    | InterleaveNode(left: Id, right: Id)
    | OneOrMoreNode(body: Id)
    | ElementNode(nameClass: NameClass, contentModel: Id)
    | AttributeNode(nameClass: NameClass, exp: Id)
    | DataNode(dt: Datatype)
    | RefNode(name: string, target: Id)
    | OtherNode(exp: Id, payload: Payload)

  function Children(n: Node): seq<Id>
  {
    match n
    case ChoiceNode(l, r) => [l, r]
    case SequenceNode(l, r) => [l, r]
    case InterleaveNode(l, r) => [l, r]
    case OneOrMoreNode(b) => [b]
    case ElementNode(_, c) => [c]
    case AttributeNode(_, e) => [e]
    case RefNode(_, t) => [t]
    case OtherNode(e, _) => [e]
    case _ => []
  }

  /** Nodes built from their children alone: what ExpressionCloner rebuilds. */
  predicate IsCombinator(n: Node)
  {
    n.ChoiceNode? || n.SequenceNode? || n.InterleaveNode? || n.OneOrMoreNode?
  }

  /** A combinator of the same kind over other children. */
  function Rebuilt(n: Node, children: seq<Id>): (r: Node)
    requires IsCombinator(n) && |children| == |Children(n)|
    ensures IsCombinator(r) && Children(r) == children
  {
    match n
    case ChoiceNode(_, _) => ChoiceNode(children[0], children[1])
    case SequenceNode(_, _) => SequenceNode(children[0], children[1])
    case InterleaveNode(_, _) => InterleaveNode(children[0], children[1])
    case OneOrMoreNode(_) => OneOrMoreNode(children[0])
  }

  /** Two combinators of the same kind. */
  predicate SameCombinator(a: Node, b: Node)
  {
    (a.ChoiceNode? && b.ChoiceNode?) || (a.SequenceNode? && b.SequenceNode?)
    || (a.InterleaveNode? && b.InterleaveNode?) || (a.OneOrMoreNode? && b.OneOrMoreNode?)
  }

  function MaxRank(rank: map<Id, nat>, ids: seq<Id>): (r: nat)
    requires forall i :: 0 <= i < |ids| ==> ids[i] in rank
    ensures forall i :: 0 <= i < |ids| ==> rank[ids[i]] <= r
    ensures ids == [] ==> r == 0
    ensures ids != [] ==> exists i :: 0 <= i < |ids| && r == rank[ids[i]]
  {
    if ids == [] then 0
    else
      var m := MaxRank(rank, ids[1..]);
      if rank[ids[0]] >= m then rank[ids[0]]
      else
        assert exists i :: 0 <= i < |ids[1..]| && m == rank[ids[1..][i]];
        m
  }

  /**
   * A node's children exist, and unless the node is a cut (an element, or a node a
   * rewrite redirected) they rank below it.
   */
  ghost predicate Linked(keys: set<Id>, rank: map<Id, nat>, n: Node, r: nat, cut: bool)
  {
    forall c :: c in Children(n) ==> c in keys && c in rank && (!cut ==> rank[c] < r)
  }

  lemma LinkedGrows(keys: set<Id>, rank: map<Id, nat>, keys': set<Id>, rank': map<Id, nat>, n: Node, r: nat, cut: bool)
    requires Linked(keys, rank, n, r, cut) && keys <= keys'
    requires forall c :: c in rank ==> c in rank' && rank'[c] == rank[c]
    ensures Linked(keys', rank', n, r, cut)
  {
  }

  /** Node `id`, if present, is linked; named separately so that the invariant's quantifier fires only where a proof asks for it. */
  ghost predicate LinkedAt(nodes: map<Id, Node>, rank: map<Id, nat>, cuts: set<Id>, id: Id)
  {
    id in nodes ==> id in rank && Linked(nodes.Keys, rank, nodes[id], rank[id], id in cuts)
  }

  /** The arena invariant, over the values of a graph's fields. */
  ghost predicate Wellformed(nodes: map<Id, Node>, next: Id, rank: map<Id, nat>, elements: set<Id>, cuts: set<Id>)
  {
    (forall id :: id in nodes ==> id < next)
    && AnyStringId < next
    && NullSetId in nodes && EpsilonId in nodes && AnyStringId in nodes
    && nodes[NullSetId] == NullSetNode && nodes[EpsilonId] == EpsilonNode && nodes[AnyStringId] == AnyStringNode
    && rank.Keys == nodes.Keys
    && rank[NullSetId] == 0 && rank[EpsilonId] == 0
    && elements <= cuts <= nodes.Keys
    && (forall id :: id in nodes ==> (nodes[id].ElementNode? <==> id in elements))
    && (forall id :: id in cuts ==> nodes[id].ElementNode? || nodes[id].RefNode? || nodes[id].OtherNode?)
    && (forall id :: LinkedAt(nodes, rank, cuts, id))
  }

  /** Two nodes of the same identity before and after a rewrite: only element, reference and other nodes change in place. */
  predicate SameShape(a: Node, b: Node)
  {
    a == b
    || (a.ElementNode? && b.ElementNode? && a.nameClass == b.nameClass)
    || (a.RefNode? && b.RefNode? && a.name == b.name)
    || (a.OtherNode? && b.OtherNode? && a.payload == b.payload)
  }

  /** A later state of the same arena: nodes are only added or changed in shape, ranks only added. */
  ghost predicate Evolves(nodes: map<Id, Node>, rank: map<Id, nat>, nodes': map<Id, Node>, rank': map<Id, nat>)
  {
    (forall k :: k in nodes ==> k in nodes' && SameShape(nodes[k], nodes'[k]))
    && (forall k :: k in rank ==> k in rank' && rank'[k] == rank[k])
  }

  lemma EvolvesTransitive(n0: map<Id, Node>, r0: map<Id, nat>, n1: map<Id, Node>, r1: map<Id, nat>, n2: map<Id, Node>, r2: map<Id, nat>)
    requires Evolves(n0, r0, n1, r1) && Evolves(n1, r1, n2, r2)
    ensures Evolves(n0, r0, n2, r2)
  {
  }

  /** The rank a new node gets: one above its highest child. */
  function NewRank(rank: map<Id, nat>, n: Node): (r: nat)
    requires forall c :: c in Children(n) ==> c in rank
    ensures forall c :: c in Children(n) ==> rank[c] < r
    ensures Children(n) == [] ==> r == 0
  {
    var children := Children(n);
    assert forall i :: 0 <= i < |children| ==> children[i] in Children(n);
    if children == [] then 0
    else
      var r := 1 + MaxRank(rank, children);
      assert forall c :: c in children ==> exists i :: 0 <= i < |children| && children[i] == c;
      r
  }

  /** A node's rank is bounded by any bound that all its children stay under. */
  lemma NewRankBound(rank: map<Id, nat>, n: Node, bound: nat)
    requires forall c :: c in Children(n) ==> c in rank && rank[c] < bound
    ensures NewRank(rank, n) <= bound
  {
    var children := Children(n);
    if children != [] {
      forall i | 0 <= i < |children| ensures children[i] in rank { assert children[i] in Children(n); }
      var m := MaxRank(rank, children);
      var i :| 0 <= i < |children| && m == rank[children[i]];
      assert children[i] in Children(n);
    }
  }

  /** Adding a node over existing children at the next id keeps the arena well formed. */
  lemma CreateKeepsWellformed(nodes: map<Id, Node>, next: Id, rank: map<Id, nat>, elements: set<Id>, cuts: set<Id>, n: Node)
    requires Wellformed(nodes, next, rank, elements, cuts) && !n.ElementNode?
    requires forall c :: c in Children(n) ==> c in nodes
    ensures Wellformed(nodes[next := n], next + 1, rank[next := NewRank(rank, n)], elements, cuts)
  {
    var nodes', rank' := nodes[next := n], rank[next := NewRank(rank, n)];
    forall k ensures LinkedAt(nodes', rank', cuts, k) {
      if k in nodes' && k != next {
        assert LinkedAt(nodes, rank, cuts, k);
        LinkedGrows(nodes.Keys, rank, nodes'.Keys, rank', nodes[k], rank[k], k in cuts);
      }
    }
    assert next !in cuts;
  }

  /** Changing one node's children, keeping its kind, keeps the arena well formed, the node becoming a cut when a child no longer ranks below it. */
  lemma RedirectKeepsWellformed(nodes: map<Id, Node>, next: Id, rank: map<Id, nat>, elements: set<Id>, cuts: set<Id>, id: Id, n: Node)
    requires Wellformed(nodes, next, rank, elements, cuts) && id in nodes
    requires n.ElementNode? == nodes[id].ElementNode?
    requires n.ElementNode? || n.RefNode? || n.OtherNode?
    requires nodes[id].ElementNode? || nodes[id].RefNode? || nodes[id].OtherNode?
    requires forall c :: c in Children(n) ==> c in nodes
    ensures var cut := id in cuts || !Linked(nodes.Keys, rank, n, rank[id], false);
      Wellformed(nodes[id := n], next, rank, elements, if cut then cuts + {id} else cuts)
  {
    var cut := id in cuts || !Linked(nodes.Keys, rank, n, rank[id], false);
    var nodes', cuts' := nodes[id := n], if cut then cuts + {id} else cuts;
    assert nodes'.Keys == nodes.Keys;
    assert Linked(nodes'.Keys, rank, n, rank[id], cut);
    forall k ensures LinkedAt(nodes', rank, cuts', k) {
      if k in nodes' && k != id {
        assert LinkedAt(nodes, rank, cuts, k);
        assert nodes'[k] == nodes[k] && (k in cuts' <==> k in cuts);
      }
    }
  }

  /** The node a reference or other node becomes when its child is redirected. */
  function Redirected(n: Node, child: Id): (r: Node)
    requires n.RefNode? || n.OtherNode?
    ensures SameShape(n, r) && Children(r) == [child]
  {
    if n.RefNode? then RefNode(n.name, child) else OtherNode(child, n.payload)
  }

  lemma SetChildKeepsWellformed(nodes: map<Id, Node>, next: Id, rank: map<Id, nat>, elements: set<Id>, cuts: set<Id>, id: Id, child: Id)
    requires Wellformed(nodes, next, rank, elements, cuts) && id in nodes && child in nodes
    requires nodes[id].RefNode? || nodes[id].OtherNode?
    ensures Wellformed(nodes[id := Redirected(nodes[id], child)], next, rank, elements,
                       if rank[child] < rank[id] then cuts else cuts + {id})
  {
    var n := Redirected(nodes[id], child);
    RedirectKeepsWellformed(nodes, next, rank, elements, cuts, id, n);
    assert LinkedAt(nodes, rank, cuts, id);
    assert Children(nodes[id]) == [if nodes[id].RefNode? then nodes[id].target else nodes[id].exp];
    if rank[child] < rank[id] && id !in cuts {
      assert Linked(nodes.Keys, rank, n, rank[id], false);
    }
    if rank[child] >= rank[id] {
      assert child in Children(n);
    }
  }

  class Graph {
    var nodes: map<Id, Node>
    /** the next free id */
    var next: Id
    ghost var rank: map<Id, nat>
    ghost var elements: set<Id>
    ghost var cuts: set<Id>

    ghost predicate Valid()
      reads this
    {
      Wellformed(nodes, next, rank, elements, cuts)
    }

    /** A child of a node exists, and ranks below it unless the node is a cut. */
    lemma ChildOf(id: Id, c: Id)
      requires Valid() && id in nodes && c in Children(nodes[id])
      ensures c in nodes && (id !in cuts ==> rank[c] < rank[id])
    {
      assert LinkedAt(nodes, rank, cuts, id);
    }

    /** An empty grammar: just the three constants. */
    constructor()
      ensures Valid() && nodes == map[NullSetId := NullSetNode, EpsilonId := EpsilonNode, AnyStringId := AnyStringNode]
      ensures elements == {} && cuts == {}
    {
      nodes := map[NullSetId := NullSetNode, EpsilonId := EpsilonNode, AnyStringId := AnyStringNode];
      next := 3;
      rank := map[NullSetId := 0, EpsilonId := 0, AnyStringId := 0];
      elements := {};
      cuts := {};
      new;
      assert forall id :: id in nodes ==> Children(nodes[id]) == [];
    }

    /** A new immutable node over existing children, ranked above them. */
    method Create(n: Node) returns (id: Id)
      requires Valid() && !n.ElementNode?
      requires forall c :: c in Children(n) ==> c in nodes
      modifies this
      ensures Valid()
      ensures id == old(next) && id !in old(nodes)
      ensures nodes == old(nodes)[id := n]
      ensures rank == old(rank)[id := NewRank(old(rank), n)]
      ensures elements == old(elements) && cuts == old(cuts)
    {
      id := next;
      CreateKeepsWellformed(nodes, next, rank, elements, cuts, n);
      nodes := nodes[id := n];
      rank := rank[id := NewRank(rank, n)];
      next := next + 1;
    }

    /** ElementExp.contentModel is assigned in place. */
    method SetContentModel(id: Id, content: Id)
      requires Valid() && id in nodes && nodes[id].ElementNode? && content in nodes
      modifies this`nodes
      ensures Valid()
      ensures nodes == old(nodes)[id := ElementNode(old(nodes)[id].nameClass, content)]
    {
      RedirectKeepsWellformed(nodes, next, rank, elements, cuts, id, ElementNode(nodes[id].nameClass, content));
      nodes := nodes[id := ElementNode(nodes[id].nameClass, content)];
    }

    /**
     * ReferenceExp.exp or OtherExp.exp is assigned in place; the node becomes a cut
     * unless its new child still ranks below it.
     */
    method SetChild(id: Id, child: Id)
      requires Valid() && id in nodes && (nodes[id].RefNode? || nodes[id].OtherNode?) && child in nodes
      modifies this`nodes, this`cuts
      ensures Valid()
      ensures nodes == old(nodes)[id := Redirected(old(nodes)[id], child)]
      ensures cuts == if rank[child] < rank[id] then old(cuts) else old(cuts) + {id}
    {
      SetChildKeepsWellformed(nodes, next, rank, elements, cuts, id, child);
      nodes, cuts := nodes[id := Redirected(nodes[id], child)], if rank[child] < rank[id] then cuts else cuts + {id};
    }
  }
}
