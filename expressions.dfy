/**
 * Content-model expressions as the validator sees them. Expressions are immutable and
 * pooled, so two expressions built from the same parts are the same expression; here
 * that identity is the structural equality of a datatype value.
 *
 * An element expression carries its identity and name class but not its content model,
 * which only the combined-child-content creator looks at. A reference carries its target,
 * since the grammar readers reject references that recurse without passing an element.
 */
module Expressions {
  import opened NameClasses
  import opened Datatypes

  datatype Expression =
    | NullSet
    | Epsilon
    | AnyString
    | Choice(exp1: Expression, exp2: Expression)
    | Sequence(exp1: Expression, exp2: Expression)
    | Interleave(exp1: Expression, exp2: Expression)
    | OneOrMore(exp: Expression)
    | Element(elementId: nat, nameClass: NameClass)
    | Attribute(nameClass: NameClass, exp: Expression)
    | Data(dt: Datatype)
    | Ref(name: string, exp: Expression)
    | Other(exp: Expression)

  /** How an acceptor treats character data (Acceptor.STRING_*). */
  datatype StringCareLevel = Strict | Prohibited | Ignore

  /** Whether the language of `e` contains the empty sequence. */
  predicate EpsilonReducible(e: Expression)
  {
    match e
    case NullSet => false
    case Epsilon => true
    case AnyString => true
    case Choice(a, b) => EpsilonReducible(a) || EpsilonReducible(b)
    case Sequence(a, b) => EpsilonReducible(a) && EpsilonReducible(b)
    case Interleave(a, b) => EpsilonReducible(a) && EpsilonReducible(b)
    case OneOrMore(a) => EpsilonReducible(a)
    case Element(_, _) => false
    case Attribute(_, _) => false
    case Data(_) => false
    case Ref(_, a) => EpsilonReducible(a)
    case Other(a) => EpsilonReducible(a)
  }

  /**
   * ChoiceExp.getChildren: the branches of a nest of choices, left to right, none of
   * them itself a choice.
   */
  function ChoiceChildren(e: Expression): (r: seq<Expression>)
    ensures |r| >= 1
    ensures e.Choice? ==> forall i :: 0 <= i < |r| ==> r[i] < e
    ensures !e.Choice? ==> r == [e]
    ensures forall i :: 0 <= i < |r| ==> !r[i].Choice?
  {
    if e.Choice? then ChoiceChildren(e.exp1) + ChoiceChildren(e.exp2) else [e]
  }

  /** A choice is epsilon-reducible iff one of its branches is. */
  lemma {:induction false} ChoiceChildrenEpsilon(e: Expression)
    ensures EpsilonReducible(e) <==> exists i :: 0 <= i < |ChoiceChildren(e)| && EpsilonReducible(ChoiceChildren(e)[i])
  {
    if e.Choice? {
      ChoiceChildrenEpsilon(e.exp1);
      ChoiceChildrenEpsilon(e.exp2);
      var l, r := ChoiceChildren(e.exp1), ChoiceChildren(e.exp2);
      assert ChoiceChildren(e) == l + r;
      if EpsilonReducible(e.exp1) {
        var i :| 0 <= i < |l| && EpsilonReducible(l[i]);
        assert (l + r)[i] == l[i];
      } else if EpsilonReducible(e.exp2) {
        var i :| 0 <= i < |r| && EpsilonReducible(r[i]);
        assert (l + r)[|l| + i] == r[i];
      } else {
        forall i | 0 <= i < |l + r| ensures !EpsilonReducible((l + r)[i]) {
          if i < |l| { assert (l + r)[i] == l[i]; } else { assert (l + r)[i] == r[i - |l|]; }
        }
      }
    } else {
      assert ChoiceChildren(e)[0] == e;
    }
  }
}
