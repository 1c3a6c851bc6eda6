/**
 * Name matchers ("name classes"): predicates over a (namespace URI, local name) pair
 * that decide whether an element or attribute name is accepted.
 */
module NameClasses {

  /** The sentinel local name that a LocalNameClass accepts whatever its own local name. */
  const LocalNameWildcard: string := "*"

  datatype NameClass =
    | AnyName
    | SimpleName(namespaceUri: string, localName: string)
    | NamespaceName(namespaceUri: string)
    | NotName(child: NameClass)
    | ChoiceName(nc1: NameClass, nc2: NameClass)
    /** TREX difference: accepted by nc1 and not by nc2 */
    | DifferenceName(nc1: NameClass, nc2: NameClass)
    /** DTD-style name class: matches the local part only */
    | LocalName(localName: string)

  predicate Accepts(nc: NameClass, namespaceUri: string, local: string)
  {
    match nc
    case AnyName => true
    case SimpleName(u, l) => u == namespaceUri && l == local
    case NamespaceName(u) => u == namespaceUri
    case NotName(c) => !Accepts(c, namespaceUri, local)
    case ChoiceName(a, b) => Accepts(a, namespaceUri, local) || Accepts(b, namespaceUri, local)
    case DifferenceName(a, b) => Accepts(a, namespaceUri, local) && !Accepts(b, namespaceUri, local)
    case LocalName(l) => l == local || LocalNameWildcard == local
  }

  /** LocalNameClass.toString: the stored local name, unchanged. */
  function LocalNameText(nc: NameClass): (r: string)
    requires nc.LocalName?
    ensures r == nc.localName
    ensures forall l :: nc == LocalName(l) ==> r == l
  {
    nc.localName
  }

  // ---------------------------------------------------------------- LocalNameClass

  /** The namespace URI plays no part in what a local-name class accepts. */
  lemma LocalNameIgnoresNamespace(l: string, ns1: string, ns2: string, local: string)
    ensures Accepts(LocalName(l), ns1, local) == Accepts(LocalName(l), ns2, local)
  {
  }

  /** A local-name class accepts exactly its own local name and the wildcard sentinel. */
  lemma LocalNameAcceptsExactly(l: string, ns: string, local: string)
    ensures Accepts(LocalName(l), ns, local) <==> (local == l || local == LocalNameWildcard)
  {
  }

  // ---------------------------------------------------------------- DifferenceNameClass

  /** The difference accepts a name iff its first class does and its second does not. */
  lemma DifferenceAcceptsExactly(nc1: NameClass, nc2: NameClass, ns: string, local: string)
    ensures Accepts(DifferenceName(nc1, nc2), ns, local)
        <==> Accepts(nc1, ns, local) && !Accepts(nc2, ns, local)
  {
  }

  /** Everything the difference accepts, its first class accepts, and nothing the second accepts. */
  lemma DifferenceBounds(nc1: NameClass, nc2: NameClass)
    ensures forall ns, local :: Accepts(DifferenceName(nc1, nc2), ns, local) ==> Accepts(nc1, ns, local)
    ensures forall ns, local :: Accepts(nc2, ns, local) ==> !Accepts(DifferenceName(nc1, nc2), ns, local)
  {
  }

  /** A class minus itself accepts no name at all. */
  lemma DifferenceWithItselfIsEmpty(nc: NameClass)
    ensures forall ns, local :: !Accepts(DifferenceName(nc, nc), ns, local)
  {
  }
}
