/**
 * What an expression acceptor works with: tokens, start tags, the grammar's collaborators
 * (residual calculator, combined-child-content creator, attribute feeder, remover and
 * picker, the expression pool, the string-care-level calculator, the datatype library
 * and the message catalogue), and the functions that specify the acceptor's steps and
 * diagnoses.
 *
 * The collaborators are not part of this model: each is a function-valued field of
 * `DocDecl` about which nothing is assumed, not even that `createChoice` simplifies.
 */
module AcceptorSpec {
  import opened Wrappers
  import opened NameClasses
  import opened Datatypes
  import opened Expressions
  import opened Candidates

  datatype AttributeItem = AttributeItem(namespaceUri: string, localName: string, qName: string, value: string)

  /** StartTagInfo: the element's name and its attributes in document order. */
  datatype StartTag = StartTag(namespaceUri: string, localName: string, qName: string, attributes: seq<AttributeItem>)

  datatype Token =
    | ElementToken(tag: StartTag)
    /** the wildcard probe used while recovering from an error */
    | AnyElementToken
    | StringToken(literal: string, ignorable: bool)

  predicate IsIgnorable(t: Token)
  {
    t.StringToken? && t.ignorable
  }

  /** One element declaration that the combined child content was built from. */
  datatype Owner = Owner(nameClass: NameClass, ignoreUndeclaredAttributes: bool)

  /** What CombinedChildContentExpCreator leaves behind after one `get`. */
  datatype Combined = Combined(
    content: Expression,
    continuation: Option<Expression>,
    elementsOfConcern: seq<Owner>,
    isComplex: bool)

  /** The verdict of Datatype.checkValid: an invalid literal may come with a message. */
  datatype Validity = Valid | Invalid(message: Option<string>)

  /** Message-catalogue keys (the DIAG_* constants). */
  datatype MessageTag =
    | ElementNotAllowed
    | BadTagNameGeneric | BadTagNameWrongNamespace | BadTagNameProbablyWrongNamespace
    | BadTagNameWrapup | BadTagNameSeparator | BadTagNameMore
    | SimpleNameClassItem | NamespaceNameClassItem | NotNamespaceNameClassItem
    | UndeclaredAttribute | BadAttributeValueGeneric | BadAttributeValueDatatype
    | BadAttributeValueWrapup | BadAttributeValueSeparator | BadAttributeValueMore
    | MissingAttributeGeneric | MissingAttributeSimple | MissingAttributeWrapup
    | MissingAttributeSeparator | MissingAttributeMore
    | StringNotAllowed | BadLiteralWrapup | BadLiteralSeparator | BadLiteralMore
    | UncompletedContentWrapup | UncompletedContentSeparator | UncompletedContentMore

  /** The runtime faults the acceptor's internal assertions and casts can raise. */
  datatype Fault = AssertionFailure | NullPointer | ClassCast

  datatype DocDecl = DocDecl(
    /** ResidualCalculator.calcResidual */
    residual: (Expression, Token) -> Expression,
    /** ExpressionPool.createChoice */
    createChoice: (Expression, Expression) -> Expression,
    /** CombinedChildContentExpCreator.get(exp, tag, feedAttributes, checkTagName) */
    combine: (Expression, Option<StartTag>, bool, bool) -> Combined,
    /** CombinedChildContentExpCreator.continueGet: the same, appended to the previous result */
    continueCombine: (Combined, Expression, Option<StartTag>, bool, bool) -> Combined,
    /** AttributeFeeder.feed with an attribute token */
    feedAttribute: (Expression, AttributeItem, bool) -> Expression,
    /** AttributeFeeder.feed with the wildcard-valued recovery token: residual and failed constraint */
    feedRecoveryAttribute: (Expression, AttributeItem, bool) -> (Expression, Expression),
    /** AttributeRemover */
    removeAttributes: Expression -> Expression,
    /** AttributePicker */
    pickAttributes: Expression -> Expression,
    /** the residual by a StringRecoveryToken and the typed-string constraints it failed */
    recoveryResidual: (Expression, string) -> (Expression, set<Datatype>),
    /** StringCareLevelCalculator.calc */
    careLevel: Expression -> StringCareLevel,
    /** Datatype.checkValid */
    checkValid: (Datatype, string) -> Validity,
    /** localizeMessage */
    localize: (MessageTag, seq<string>) -> string,
    /** whether StringToken judges a literal ignorable */
    ignorableLiteral: string -> bool,
    /** SimpleNameClass.toString */
    nameText: NameClass -> string)

  /** What createAcceptor is asked to build: a child acceptor over `contentModel`. */
  datatype ChildSpec = ChildSpec(
    contentModel: Expression,
    continuation: Option<Expression>,
    elementsOfConcern: Option<seq<Owner>>)

  // ------------------------------------------------------------------ stepping

  /** The residual by `t`, widened by the old state when `t` is ignorable. */
  function Advanced(dd: DocDecl, e: Expression, t: Token): (r: Expression)
    ensures IsIgnorable(t) ==> r == dd.createChoice(dd.residual(e, t), e)
    ensures !IsIgnorable(t) ==> r == dd.residual(e, t)
  {
    var residual := dd.residual(e, t);
    if IsIgnorable(t) then dd.createChoice(residual, e) else residual
  }

  /**
   * mergeContinuation, with `None` for Java's null: nothing from two nulls, the other side
   * when one side is null or nullSet, otherwise the choice of both.
   */
  function MergeContinuation(dd: DocDecl, e1: Option<Expression>, e2: Option<Expression>): (r: Option<Expression>)
    ensures e1 == None && e2 == None ==> r == None
    ensures (e1 == None || e1 == Some(NullSet)) ==> r == e2
    ensures e1 != None && e1 != Some(NullSet) && (e2 == None || e2 == Some(NullSet)) ==> r == e1
    ensures r == None <==> e2 == None && (e1 == None || e1 == Some(NullSet))
    ensures e1.Some? && e1 != Some(NullSet) && e2.Some? && e2 != Some(NullSet)
        ==> r == Some(dd.createChoice(e1.value, e2.value))
  {
    if e1 == None && e2 == None then None
    else if e1 == None || e1 == Some(NullSet) then e2
    else if e2 == None || e2 == Some(NullSet) then e1
    else Some(dd.createChoice(e1.value, e2.value))
  }

  /** The state after error recovery: the old state or the old state with one element skipped. */
  function Widened(dd: DocDecl, e: Expression): Expression
  {
    dd.createChoice(e, dd.residual(e, AnyElementToken))
  }

  /** The acceptor createRecoveryAcceptors builds from state `e`. */
  function RecoverySpec(dd: DocDecl, e: Expression): (r: ChildSpec)
    ensures r.continuation.Some?
    ensures r.elementsOfConcern == None
    ensures
      var eocr := dd.residual(e, AnyElementToken);
      var c1 := dd.combine(e, None, false, false);
      var merged := MergeContinuation(dd, c1.continuation,
                                          dd.continueCombine(c1, eocr, None, false, false).continuation);
      (merged == None || merged == Some(NullSet) ==> r.continuation == Some(Widened(dd, e))) &&
      (merged != None && merged != Some(NullSet) ==> r.continuation == merged)
  {
    var c1 := dd.combine(e, None, false, false);
    var eocr := dd.residual(e, AnyElementToken);
    var c2 := dd.continueCombine(c1, eocr, None, false, false);
    var merged := MergeContinuation(dd, c1.continuation, c2.continuation);
    var continuation := if merged == None || merged == Some(NullSet) then Some(Widened(dd, e)) else merged;
    ChildSpec(dd.removeAttributes(dd.createChoice(c1.content, c2.content)), continuation, None)
  }

  // ------------------------------------------------------------------ attributes

  /** The content after feeding `atts` one by one, left to right. */
  function FeedAll(dd: DocDecl, e: Expression, atts: seq<AttributeItem>, ignore: bool): Expression
  {
    if atts == [] then e
    else dd.feedAttribute(FeedAll(dd, e, atts[..|atts| - 1], ignore), atts[|atts| - 1], ignore)
  }

  /** Every prefix of `atts` was fed without reaching nullSet. */
  ghost predicate AllFed(dd: DocDecl, e: Expression, atts: seq<AttributeItem>, ignore: bool)
  {
    forall k :: 0 <= k <= |atts| ==> FeedAll(dd, e, atts[..k], ignore) != NullSet
  }

  /**
   * The index of the first attribute whose feeding leaves nullSet, when feeding `atts`
   * in order and stopping at the first rejection.
   */
  function FirstRejected(dd: DocDecl, e: Expression, atts: seq<AttributeItem>, ignore: bool): (r: Option<nat>)
    ensures r.Some? ==> r.value < |atts|
  {
    if atts == [] then None
    else match FirstRejected(dd, e, atts[..|atts| - 1], ignore)
      case Some(i) => Some(i)
      case None => if FeedAll(dd, e, atts, ignore) == NullSet then Some(|atts| - 1) else None
  }

  /**
   * Feeding from a non-empty content: with no rejection every prefix stays non-empty; a
   * rejection at `i` means the first `i` attributes were accepted and attribute `i` was not.
   */
  lemma {:induction false} FirstRejectedExactly(dd: DocDecl, e: Expression, atts: seq<AttributeItem>, ignore: bool)
    requires e != NullSet
    ensures FirstRejected(dd, e, atts, ignore) == None ==> AllFed(dd, e, atts, ignore)
    ensures FirstRejected(dd, e, atts, ignore).Some? ==>
      var i := FirstRejected(dd, e, atts, ignore).value;
      AllFed(dd, e, atts[..i], ignore) && FeedAll(dd, e, atts[..i + 1], ignore) == NullSet
  {
    if atts != [] {
      var front := atts[..|atts| - 1];
      FirstRejectedExactly(dd, e, front, ignore);
      forall k | 0 <= k <= |front| ensures front[..k] == atts[..k] { }
      assert atts[..|atts|] == atts;
      match FirstRejected(dd, e, front, ignore)
      case Some(i) =>
        assert front[..i] == atts[..i] && front[..i + 1] == atts[..i + 1];
        forall k | 0 <= k <= i ensures atts[..i][..k] == front[..i][..k] { }
      case None =>
        if FeedAll(dd, e, atts, ignore) == NullSet {
          assert atts[..|front|] == front;
          forall k | 0 <= k <= |front| ensures front[..k] == atts[..|front|][..k] { }
        }
    }
  }

  // ------------------------------------------------------------------ candidates

  /** The candidate text one name class contributes, or None for a name class too complex to show. */
  function NameClassCandidate(dd: DocDecl, nc: NameClass): Option<string>
  {
    match nc
    case SimpleName(_, _) => Some(dd.localize(SimpleNameClassItem, [dd.nameText(nc)]))
    case NamespaceName(u) => Some(dd.localize(NamespaceNameClassItem, [u]))
    case NotName(NamespaceName(u)) => Some(dd.localize(NotNamespaceNameClassItem, [u]))
    case _ => None
  }

  /** A set of candidates and whether some candidates could not be listed. */
  datatype CandidateSet = CandidateSet(items: set<string>, more: bool)

  /** The candidates the loop over the elements of concern collects. */
  function NameCandidates(dd: DocDecl, eoc: seq<Owner>): CandidateSet
  {
    if eoc == [] then CandidateSet({}, false)
    else
      var c := NameCandidates(dd, eoc[..|eoc| - 1]);
      match NameClassCandidate(dd, eoc[|eoc| - 1].nameClass)
      case Some(t) => CandidateSet(c.items + {t}, c.more)
      case None => CandidateSet(c.items, true)
  }

  /** The namespace of the last simple name class whose local name is `local`. */
  function WrongNamespace(eoc: seq<Owner>, local: string): Option<string>
  {
    if eoc == [] then None
    else
      var nc := eoc[|eoc| - 1].nameClass;
      if nc.SimpleName? && nc.localName == local then Some(nc.namespaceUri)
      else WrongNamespace(eoc[..|eoc| - 1], local)
  }

  /**
   * The collected candidates are exactly the texts of the name classes that have one, and
   * `more` is set exactly when some name class has none.
   */
  lemma {:induction false} NameCandidatesExactly(dd: DocDecl, eoc: seq<Owner>)
    ensures forall x :: (x in NameCandidates(dd, eoc).items
        <==> exists k :: 0 <= k < |eoc| && NameClassCandidate(dd, eoc[k].nameClass) == Some(x))
    ensures NameCandidates(dd, eoc).more
        <==> exists k :: 0 <= k < |eoc| && NameClassCandidate(dd, eoc[k].nameClass) == None
  {
    if eoc != [] {
      var front := eoc[..|eoc| - 1];
      NameCandidatesExactly(dd, front);
      forall k | 0 <= k < |front| ensures front[k] == eoc[k] { }
      var last := |eoc| - 1;
      forall x ensures x in NameCandidates(dd, eoc).items
          <==> exists k :: 0 <= k < |eoc| && NameClassCandidate(dd, eoc[k].nameClass) == Some(x)
      {
        if exists k :: 0 <= k < |eoc| && NameClassCandidate(dd, eoc[k].nameClass) == Some(x) {
          var k :| 0 <= k < |eoc| && NameClassCandidate(dd, eoc[k].nameClass) == Some(x);
          if k < last { assert front[k] == eoc[k]; }
        }
      }
      if exists k :: 0 <= k < |eoc| && NameClassCandidate(dd, eoc[k].nameClass) == None {
        var k :| 0 <= k < |eoc| && NameClassCandidate(dd, eoc[k].nameClass) == None;
        if k < last { assert front[k] == eoc[k]; }
      }
    }
  }

  /**
   * A wrong namespace is reported exactly when some simple name class has the tag's local
   * name, and then it is the namespace of the last such one.
   */
  lemma {:induction false} WrongNamespaceExactly(eoc: seq<Owner>, local: string)
    ensures WrongNamespace(eoc, local).Some?
        <==> exists k :: 0 <= k < |eoc| && eoc[k].nameClass.SimpleName? && eoc[k].nameClass.localName == local
    ensures WrongNamespace(eoc, local).Some? ==>
      exists k :: 0 <= k < |eoc| && eoc[k].nameClass == SimpleName(WrongNamespace(eoc, local).value, local)
        && forall j :: k < j < |eoc| ==> !(eoc[j].nameClass.SimpleName? && eoc[j].nameClass.localName == local)
  {
    if eoc != [] {
      var front := eoc[..|eoc| - 1];
      WrongNamespaceExactly(front, local);
      var nc := eoc[|eoc| - 1].nameClass;
      if !(nc.SimpleName? && nc.localName == local) {
        if exists k :: 0 <= k < |eoc| && eoc[k].nameClass.SimpleName? && eoc[k].nameClass.localName == local {
          var k :| 0 <= k < |eoc| && eoc[k].nameClass.SimpleName? && eoc[k].nameClass.localName == local;
          assert k < |eoc| - 1 && front[k] == eoc[k];
        }
        if WrongNamespace(front, local).Some? {
          var k :| 0 <= k < |front| && front[k].nameClass == SimpleName(WrongNamespace(front, local).value, local)
            && forall j :: k < j < |front| ==> !(front[j].nameClass.SimpleName? && front[j].nameClass.localName == local);
          assert eoc[k] == front[k];
          forall j | k < j < |eoc| ensures !(eoc[j].nameClass.SimpleName? && eoc[j].nameClass.localName == local) {
            if j < |front| { assert eoc[j] == front[j]; }
          }
        }
      }
    }
  }

  /** Candidates joined for a message: the separator and "more" texts come from the catalogue. */
  ghost function CandidateText(dd: DocDecl, c: CandidateSet, sep: MessageTag, more: MessageTag): string
  {
    Concatenation(c.items, c.more, dd.localize(sep, []), dd.localize(more, []))
  }

  /** diagnoseBadTagName over the combined content obtained without the tag-name check. */
  ghost function BadTagNameMessage(dd: DocDecl, c: Combined, tag: StartTag): Option<string>
  {
    if c.isComplex then None
    else
      var cs := NameCandidates(dd, c.elementsOfConcern);
      var wrong := WrongNamespace(c.elementsOfConcern, tag.localName);
      if cs.items == {} then None
      else if wrong.Some? then
        if |cs.items| == 1 then Some(dd.localize(BadTagNameWrongNamespace, [tag.localName, wrong.value]))
        else Some(dd.localize(BadTagNameProbablyWrongNamespace, [tag.localName, wrong.value]))
      else Some(dd.localize(BadTagNameWrapup, [tag.qName, CandidateText(dd, cs, BadTagNameSeparator, BadTagNameMore)]))
  }

  /** diagnoseUncompletedContent for state `e` (its first message argument is null, here ""). */
  ghost function UncompletedContentMessage(dd: DocDecl, e: Expression): Option<string>
  {
    var cs := NameCandidates(dd, dd.combine(e, None, false, false).elementsOfConcern);
    if cs.items == {} then None
    else Some(dd.localize(UncompletedContentWrapup, ["", CandidateText(dd, cs, UncompletedContentSeparator, UncompletedContentMore)]))
  }

  // ------------------------------------------------------------------ attribute values

  /** The constraint with its chain of references resolved. */
  function Dereferenced(e: Expression): (r: Expression)
    ensures !r.Ref?
    ensures !e.Ref? ==> r == e
  {
    if e.Ref? then Dereferenced(e.exp) else e
  }

  /** The enumerated literals among the branches of a choice, and whether other branches exist. */
  function EnumeratedValues(children: seq<Expression>): CandidateSet
  {
    if children == [] then CandidateSet({}, false)
    else
      var c := EnumeratedValues(children[..|children| - 1]);
      var last := children[|children| - 1];
      if last.Data? && last.dt.TypedString? then CandidateSet(c.items + {last.dt.value}, c.more)
      else CandidateSet(c.items, true)
  }

  /** diagnoseBadAttributeValue for the failed constraint of attribute `i`. */
  ghost function BadAttributeValueMessage(dd: DocDecl, failed: Expression, tag: StartTag, i: nat, c: Combined): Option<string>
    requires i < |tag.attributes|
  {
    var att := tag.attributes[i];
    if c.isComplex then None
    else
      var constraint := Dereferenced(failed);
      if constraint.Data? then
        if constraint.dt == NoneType then Some(dd.localize(UndeclaredAttribute, [att.qName]))
        else match dd.checkValid(constraint.dt, att.value)
          case Valid => None
          case Invalid(None) => None
          case Invalid(Some(m)) => Some(dd.localize(BadAttributeValueDatatype, [att.qName, m]))
      else if constraint.Choice? then
        var values := EnumeratedValues(ChoiceChildren(constraint));
        if values.items == {} then None
        else Some(dd.localize(BadAttributeValueWrapup,
                              [att.qName, CandidateText(dd, values, BadAttributeValueSeparator, BadAttributeValueMore)]))
      else None
  }

  // ------------------------------------------------------------------ missing attributes

  /**
   * The names the picked attribute expression asks for: down the left spine of choices,
   * each right branch must be an attribute, and the spine must end in an attribute.
   */
  function MissingNames(dd: DocDecl, e: Expression): Result<CandidateSet, Fault>
  {
    if e.Choice? then
      if !e.exp2.Attribute? then Thrown(ClassCast)
      else match MissingNames(dd, e.exp1)
        case Thrown(f) => Thrown(f)
        case Normal(c) => Normal(AddName(dd, c, e.exp2.nameClass))
    else if !e.Attribute? then Thrown(AssertionFailure)
    else Normal(AddName(dd, CandidateSet({}, false), e.nameClass))
  }

  function AddName(dd: DocDecl, c: CandidateSet, nc: NameClass): CandidateSet
  {
    if nc.SimpleName? then CandidateSet(c.items + {dd.nameText(nc)}, c.more) else CandidateSet(c.items, true)
  }

  /** The only member of a one-element set. */
  ghost function Single<T>(s: set<T>): (r: T)
    requires |s| == 1
    ensures r in s
  {
    var x :| x in s; x
  }

  /** Whichever member is picked out of a one-element set is the one Single names. */
  lemma SingleIsMember<T>(s: set<T>, x: T)
    requires |s| == 1 && x in s
    ensures Single(s) == x
  {
    assert |s - {x}| == 0;
  }

  /** diagnoseMissingAttribute, given the content after all present attributes were fed. */
  ghost function MissingAttributeMessage(dd: DocDecl, e: Expression, tag: StartTag, c: Combined): Result<Option<string>, Fault>
  {
    if c.isComplex then Normal(None)
    else
      var picked := dd.pickAttributes(e);
      if EpsilonReducible(picked) then Thrown(AssertionFailure)
      else match MissingNames(dd, picked)
        case Thrown(f) => Thrown(f)
        case Normal(names) =>
          if names.items == {} then Normal(None)
          else if |names.items| == 1 && !names.more then
            Normal(Some(dd.localize(MissingAttributeSimple, [tag.qName, Single(names.items)])))
          else Normal(Some(dd.localize(MissingAttributeWrapup,
                                       [tag.qName, CandidateText(dd, names, MissingAttributeSeparator, MissingAttributeMore)])))
  }

  // ------------------------------------------------------------------ literals

  /** The value a typed-string constraint lists as a candidate, if it is an enumerated value. */
  function LiteralValue(dt: Datatype): Option<string>
  {
    match dt
    case TypedString(v, _) => Some(v)
    case ValueType(v, _) => Some(v)
    case _ => None
  }

  ghost function LiteralCandidates(failed: set<Datatype>): CandidateSet
  {
    CandidateSet(set dt | dt in failed && LiteralValue(dt).Some? :: LiteralValue(dt).value,
                 exists dt :: dt in failed && LiteralValue(dt) == None)
  }

  /**
   * diagnoseUnexpectedLiteral from state `e`: the new state and the message. When no
   * literal was expected at all the state stays; otherwise it is widened by the
   * recovery residual.
   */
  ghost function LiteralDiagnosis(dd: DocDecl, e: Expression, literal: string): (Expression, Option<string>)
  {
    var (recovered, failed) := dd.recoveryResidual(e, literal);
    if recovered == NullSet then (e, Some(dd.localize(StringNotAllowed, [])))
    else
      var widened := dd.createChoice(e, recovered);
      if |failed| == 1 then
        match dd.checkValid(Single(failed), literal)
        case Invalid(m) => (widened, m)
        case Valid => (widened, None)
      else
        var cs := LiteralCandidates(failed);
        if cs.items == {} then (widened, None)
        else (widened, Some(dd.localize(BadLiteralWrapup, [CandidateText(dd, cs, BadLiteralSeparator, BadLiteralMore)])))
  }

  // ------------------------------------------------------------------ recovery

  /** A detailed message, or the generic one when diagnosis found nothing to say. */
  function OrGeneric(m: Option<string>, generic: string): (r: string)
    ensures m.Some? ==> r == m.value
    ensures m == None ==> r == generic
  {
    if m.Some? then m.value else generic
  }

  /**
   * The message recover reports for a start tag the content model rejects: the element is
   * not allowed at all, or its name is wrong, or one of its attributes is undeclared or has
   * a bad value, or a required attribute is missing; a fault when the internal assertions fail.
   */
  ghost function RecoveryMessage(dd: DocDecl, e: Expression, tag: StartTag): Result<string, Fault>
  {
    var byName := dd.combine(e, Some(tag), false, true);
    if byName.content == NullSet then
      var unchecked := dd.combine(e, Some(tag), false, false);
      if unchecked.content == NullSet then Normal(dd.localize(ElementNotAllowed, [tag.qName]))
      else Normal(OrGeneric(BadTagNameMessage(dd, unchecked, tag), dd.localize(BadTagNameGeneric, [tag.qName])))
    else if byName.elementsOfConcern == [] then Thrown(NullPointer)
    else
      var ignore := byName.elementsOfConcern[0].ignoreUndeclaredAttributes;
      var atts := tag.attributes;
      match FirstRejected(dd, byName.content, atts, ignore)
      case Some(i) =>
        var fed := FeedAll(dd, byName.content, atts[..i], ignore);
        var (residual, failed) := dd.feedRecoveryAttribute(fed, atts[i], ignore);
        if residual == NullSet then Normal(dd.localize(UndeclaredAttribute, [atts[i].qName]))
        else Normal(OrGeneric(BadAttributeValueMessage(dd, failed, tag, i, byName),
                              dd.localize(BadAttributeValueGeneric, [atts[i].qName])))
      case None =>
        match MissingAttributeMessage(dd, FeedAll(dd, byName.content, atts, ignore), tag, byName)
        case Thrown(f) => Thrown(f)
        case Normal(m) => Normal(OrGeneric(m, dd.localize(MissingAttributeGeneric, [tag.qName])))
  }

  /** The names collected so far added to a (possibly failed) collection. */
  function WithNames(r: Result<CandidateSet, Fault>, items: set<string>, more: bool): Result<CandidateSet, Fault>
  {
    match r
    case Thrown(f) => Thrown(f)
    case Normal(c) => Normal(CandidateSet(c.items + items, c.more || more))
  }

  lemma WithNoNames(r: Result<CandidateSet, Fault>)
    ensures WithNames(r, {}, false) == r
  {
    if r.Normal? {
      assert r.value.items + {} == r.value.items;
    }
  }

  /** Taking one more right branch off the spine moves its name into the collected ones. */
  lemma WithNamesStep(dd: DocDecl, p: Expression, items: set<string>, more: bool)
    requires p.Choice? && p.exp2.Attribute?
    ensures var added := AddName(dd, CandidateSet(items, more), p.exp2.nameClass);
      WithNames(MissingNames(dd, p), items, more) == WithNames(MissingNames(dd, p.exp1), added.items, added.more)
  {
    match MissingNames(dd, p.exp1)
    case Thrown(_) =>
    case Normal(c) =>
      var added := AddName(dd, c, p.exp2.nameClass);
      assert added.items + items == c.items + AddName(dd, CandidateSet(items, more), p.exp2.nameClass).items;
  }

  /** The attribute that ends the spine contributes the last name. */
  lemma WithNamesLast(dd: DocDecl, p: Expression, items: set<string>, more: bool)
    requires p.Attribute?
    ensures var added := AddName(dd, CandidateSet(items, more), p.nameClass);
      WithNames(MissingNames(dd, p), items, more) == Normal(added)
  {
    var added := AddName(dd, CandidateSet({}, false), p.nameClass);
    assert added.items + items == AddName(dd, CandidateSet(items, more), p.nameClass).items;
  }
}
