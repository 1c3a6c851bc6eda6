/**
 * ExpressionAcceptor: the lazy automaton that validates one element's content. Its state
 * is an expression (the language still acceptable); start tags, text and ends of children
 * move it forward; on an error it diagnoses the cause and recovers by widening the state.
 */
module ExpressionAcceptors {
  import opened Wrappers
  import opened NameClasses
  import opened Datatypes
  import opened Expressions
  import opened Candidates
  import opened AcceptorSpec

  /** The verifierTag slots of pooled expressions: a string care level computed at most once each. */
  class OptimizationTags {
    var levels: map<Expression, StringCareLevel>

    constructor()
      ensures levels == map[]
    {
      levels := map[];
    }

    /** Every cached level is the one the calculator gives. */
    ghost predicate Valid(calculator: Expression -> StringCareLevel)
      reads this
    {
      forall e :: e in levels ==> levels[e] == calculator(e)
    }
  }

  class ExpressionAcceptor {
    const docDecl: DocDecl
    const tags: OptimizationTags
    /** the current state: what the rest of the content may still be */
    var expression: Expression

    constructor(docDecl: DocDecl, tags: OptimizationTags, exp: Expression)
      ensures this.docDecl == docDecl && this.tags == tags && expression == exp
    {
      this.docDecl := docDecl;
      this.tags := tags;
      expression := exp;
    }

    /**
     * createChildAcceptor: the child acceptor for a start tag, None when the tag is rejected
     * and no diagnosis was asked for, otherwise a recovery acceptor and a message.
     */
    method CreateChildAcceptor(tag: StartTag, withErr: bool)
      returns (r: Result<Option<ChildSpec>, Fault>, err: Option<string>)
      modifies this
      ensures var c := docDecl.combine(old(expression), Some(tag), true, true);
        c.content != NullSet ==>
          r == Normal(Some(ChildSpec(c.content, c.continuation, Some(c.elementsOfConcern))))
          && err == None && expression == old(expression)
      ensures var c := docDecl.combine(old(expression), Some(tag), true, true);
        c.content == NullSet && !withErr ==> r == Normal(None) && err == None && expression == old(expression)
      ensures var c := docDecl.combine(old(expression), Some(tag), true, true);
        c.content == NullSet && withErr ==>
          match RecoveryMessage(docDecl, old(expression), tag)
          case Normal(m) =>
            r == Normal(Some(RecoverySpec(docDecl, old(expression)))) && err == Some(m)
            && expression == Widened(docDecl, old(expression))
          case Thrown(f) => r == Thrown(f) && expression == old(expression)
    {
      var c := docDecl.combine(expression, Some(tag), true, true);
      if c.content == NullSet {
        if !withErr {
          r, err := Normal(None), None;
          return;
        }
        var rec;
        rec, err := Recover(tag);
        match rec {
          case Normal(spec) => r := Normal(Some(spec));
          case Thrown(f) => r := Thrown(f);
        }
        return;
      }
      r, err := Normal(Some(ChildSpec(c.content, c.continuation, Some(c.elementsOfConcern)))), None;
    }

    /** stepForward with a token: advance to the residual unless it is nullSet. */
    method StepForward(token: Token, withErr: bool) returns (ok: bool, err: Option<string>)
      modifies this
      ensures ok <==> Advanced(docDecl, old(expression), token) != NullSet
      ensures ok ==> expression == Advanced(docDecl, old(expression), token) && err == None
      ensures !ok && !(withErr && token.StringToken?) ==> expression == old(expression) && err == None
      ensures !ok && withErr && token.StringToken? ==>
        (expression, err) == LiteralDiagnosis(docDecl, old(expression), token.literal)
    {
      var residual := docDecl.residual(expression, token);
      if IsIgnorable(token) {
        residual := docDecl.createChoice(residual, expression);
      }
      if residual == NullSet {
        err := None;
        if withErr && token.StringToken? {
          err := DiagnoseUnexpectedLiteral(token.literal);
        }
        return false, err;
      }
      expression := residual;
      ok, err := true, None;
    }

    /** stepForward with a text literal: the literal becomes a string token first. */
    method StepForwardLiteral(literal: string, withErr: bool) returns (ok: bool, err: Option<string>)
      modifies this
      ensures var t := StringToken(literal, docDecl.ignorableLiteral(literal));
        (ok <==> Advanced(docDecl, old(expression), t) != NullSet)
        && (ok ==> expression == Advanced(docDecl, old(expression), t))
        && (!ok && !withErr ==> expression == old(expression) && err == None)
        && (!ok && withErr ==> (expression, err) == LiteralDiagnosis(docDecl, old(expression), literal))
    {
      ok, err := StepForward(StringToken(literal, docDecl.ignorableLiteral(literal)), withErr);
    }

    /** stepForwardByContinuation: a non-empty continuation becomes the new state. */
    method StepForwardByContinuation(continuation: Expression, withErr: bool) returns (ok: bool)
      modifies this
      ensures ok <==> continuation != NullSet
      ensures ok ==> expression == continuation
      ensures !ok ==> expression == old(expression)
    {
      if continuation != NullSet {
        expression := continuation;
        return true;
      }
      return false;
    }

    /** isAcceptState: the content may end here iff the state accepts the empty sequence. */
    method IsAcceptState(withErr: bool) returns (ok: bool, err: Option<string>)
      ensures ok <==> EpsilonReducible(expression)
      ensures ok || !withErr ==> err == None
      ensures !ok && withErr ==> err == UncompletedContentMessage(docDecl, expression)
    {
      ok := EpsilonReducible(expression);
      err := None;
      if !ok && withErr {
        err := DiagnoseUncompletedContent();
      }
    }

    /** getStringCareLevel: the calculator's level for the state, cached on the expression. */
    method GetStringCareLevel() returns (level: StringCareLevel)
      requires tags.Valid(docDecl.careLevel)
      modifies tags
      ensures level == docDecl.careLevel(expression)
      ensures tags.levels == old(tags.levels)[expression := level]
      ensures tags.Valid(docDecl.careLevel)
    {
      if expression in tags.levels {
        level := tags.levels[expression];
      } else {
        level := docDecl.careLevel(expression);
      }
      tags.levels := tags.levels[expression := level];
    }

    /**
     * createRecoveryAcceptors: the state widens to "this element was extra or took the place
     * of one allowed here", and the child accepts what either would have allowed.
     */
    method CreateRecoveryAcceptors() returns (spec: ChildSpec)
      modifies this
      ensures expression == Widened(docDecl, old(expression))
      ensures spec == RecoverySpec(docDecl, old(expression))
    {
      var combinedEoC := docDecl.combine(expression, None, false, false);
      var eocr := docDecl.residual(expression, AnyElementToken);
      var combinedEoCR := docDecl.continueCombine(combinedEoC, eocr, None, false, false);
      expression := docDecl.createChoice(expression, eocr);
      var continuation := MergeContinuation(docDecl, combinedEoC.continuation, combinedEoCR.continuation);
      if continuation == None || continuation == Some(NullSet) {
        continuation := Some(expression);
      }
      var contentModel := docDecl.createChoice(combinedEoC.content, combinedEoCR.content);
      spec := ChildSpec(docDecl.removeAttributes(contentModel), continuation, None);
    }

    /** The attribute loop of recover: feed attributes until one is rejected. */
    method FeedAttributes(e: Expression, atts: seq<AttributeItem>, ignore: bool)
      returns (fed: Expression, rejected: Option<nat>)
      ensures rejected == FirstRejected(docDecl, e, atts, ignore)
      ensures rejected == None ==> fed == FeedAll(docDecl, e, atts, ignore)
      ensures rejected.Some? ==> fed == FeedAll(docDecl, e, atts[..rejected.value], ignore)
    {
      fed := e;
      var i := 0;
      while i < |atts|
        invariant 0 <= i <= |atts|
        invariant FirstRejected(docDecl, e, atts[..i], ignore) == None
        invariant fed == FeedAll(docDecl, e, atts[..i], ignore)
      {
        var r := docDecl.feedAttribute(fed, atts[i], ignore);
        assert atts[..i + 1][..i] == atts[..i];
        if r == NullSet {
          PrefixRejection(e, atts, i + 1, ignore);
          return fed, Some(i);
        }
        PrefixRejection(e, atts, i + 1, ignore);
        fed := r;
        i := i + 1;
      }
      assert atts[..i] == atts;
      rejected := None;
    }

    /** The first rejection within a prefix is the first rejection of the whole list. */
    lemma {:induction false} PrefixRejection(e: Expression, atts: seq<AttributeItem>, n: nat, ignore: bool)
      requires n <= |atts|
      ensures FirstRejected(docDecl, e, atts[..n], ignore).Some? ==>
        FirstRejected(docDecl, e, atts, ignore) == FirstRejected(docDecl, e, atts[..n], ignore)
      decreases |atts| - n
    {
      if n < |atts| {
        PrefixRejection(e, atts, n + 1, ignore);
        assert atts[..n + 1][..n] == atts[..n];
      } else {
        assert atts[..n] == atts;
      }
    }

    /** recover: diagnose a rejected start tag and build the recovery acceptor. */
    method Recover(tag: StartTag) returns (r: Result<ChildSpec, Fault>, err: Option<string>)
      modifies this
      ensures match RecoveryMessage(docDecl, old(expression), tag)
        case Normal(m) =>
          r == Normal(RecoverySpec(docDecl, old(expression))) && err == Some(m)
          && expression == Widened(docDecl, old(expression))
        case Thrown(f) => r == Thrown(f) && err == None && expression == old(expression)
    {
      var byName := docDecl.combine(expression, Some(tag), false, true);
      if byName.content == NullSet {
        var unchecked := docDecl.combine(expression, Some(tag), false, false);
        if unchecked.content == NullSet {
          err := Some(docDecl.localize(ElementNotAllowed, [tag.qName]));
        } else {
          var m := DiagnoseBadTagName(unchecked, tag);
          err := Some(OrGeneric(m, docDecl.localize(BadTagNameGeneric, [tag.qName])));
        }
        var spec := CreateRecoveryAcceptors();
        return Normal(spec), err;
      }
      if byName.elementsOfConcern == [] {
        return Thrown(NullPointer), None;
      }
      var ignore := byName.elementsOfConcern[0].ignoreUndeclaredAttributes;
      var atts := tag.attributes;
      var fed, rejected := FeedAttributes(byName.content, atts, ignore);
      if rejected.Some? {
        var i := rejected.value;
        var (residual, failed) := docDecl.feedRecoveryAttribute(fed, atts[i], ignore);
        if residual == NullSet {
          err := Some(docDecl.localize(UndeclaredAttribute, [atts[i].qName]));
        } else {
          var m := DiagnoseBadAttributeValue(failed, tag, i, byName);
          err := Some(OrGeneric(m, docDecl.localize(BadAttributeValueGeneric, [atts[i].qName])));
        }
        var spec := CreateRecoveryAcceptors();
        return Normal(spec), err;
      }
      var missing := DiagnoseMissingAttribute(fed, tag, byName);
      match missing
      case Thrown(f) =>
        return Thrown(f), None;
      case Normal(m) =>
        err := Some(OrGeneric(m, docDecl.localize(MissingAttributeGeneric, [tag.qName])));
        var spec := CreateRecoveryAcceptors();
        return Normal(spec), err;
    }

    /** diagnoseBadTagName: candidates for the expected tag names, or a wrong-namespace hint. */
    method DiagnoseBadTagName(c: Combined, tag: StartTag) returns (msg: Option<string>)
      ensures msg == BadTagNameMessage(docDecl, c, tag)
    {
      if c.isComplex {
        return None;
      }
      var eoc := c.elementsOfConcern;
      var items: set<string> := {};
      var more := false;
      var wrongNamespace: Option<string> := None;
      var i := 0;
      while i < |eoc|
        invariant 0 <= i <= |eoc|
        invariant CandidateSet(items, more) == NameCandidates(docDecl, eoc[..i])
        invariant wrongNamespace == WrongNamespace(eoc[..i], tag.localName)
      {
        assert eoc[..i + 1][..i] == eoc[..i];
        var nc := eoc[i].nameClass;
        if nc.SimpleName? && nc.localName == tag.localName {
          wrongNamespace := Some(nc.namespaceUri);
        }
        match NameClassCandidate(docDecl, nc) {
          case Some(t) => items := items + {t};
          case None => more := true;
        }
        i := i + 1;
      }
      assert eoc[..i] == eoc;
      if |items| == 0 {
        return None;
      }
      if wrongNamespace.Some? {
        if |items| == 1 {
          return Some(docDecl.localize(BadTagNameWrongNamespace, [tag.localName, wrongNamespace.value]));
        }
        return Some(docDecl.localize(BadTagNameProbablyWrongNamespace, [tag.localName, wrongNamespace.value]));
      }
      var text := ConcatenateMessages(items, more, docDecl.localize(BadTagNameSeparator, []),
                                      docDecl.localize(BadTagNameMore, []));
      msg := Some(docDecl.localize(BadTagNameWrapup, [tag.qName, text]));
    }

    /** diagnoseBadAttributeValue: what the constraint that rejected attribute `i` expected. */
    method DiagnoseBadAttributeValue(failed: Expression, tag: StartTag, i: nat, c: Combined)
      returns (msg: Option<string>)
      requires i < |tag.attributes|
      ensures msg == BadAttributeValueMessage(docDecl, failed, tag, i, c)
    {
      if c.isComplex {
        return None;
      }
      var att := tag.attributes[i];
      var constraint := failed;
      while constraint.Ref?
        invariant Dereferenced(constraint) == Dereferenced(failed)
        decreases constraint
      {
        constraint := constraint.exp;
      }
      if constraint.Data? {
        if constraint.dt == NoneType {
          return Some(docDecl.localize(UndeclaredAttribute, [att.qName]));
        }
        var v := docDecl.checkValid(constraint.dt, att.value);
        if v.Invalid? && v.message.Some? {
          return Some(docDecl.localize(BadAttributeValueDatatype, [att.qName, v.message.value]));
        }
        return None;
      }
      if constraint.Choice? {
        var children := ChoiceChildren(constraint);
        var items: set<string> := {};
        var more := false;
        var k := 0;
        while k < |children|
          invariant 0 <= k <= |children|
          invariant CandidateSet(items, more) == EnumeratedValues(children[..k])
        {
          assert children[..k + 1][..k] == children[..k];
          var child := children[k];
          if child.Data? && child.dt.TypedString? {
            items := items + {child.dt.value};
          } else {
            more := true;
          }
          k := k + 1;
        }
        assert children[..k] == children;
        if |items| == 0 {
          return None;
        }
        var text := ConcatenateMessages(items, more, docDecl.localize(BadAttributeValueSeparator, []),
                                        docDecl.localize(BadAttributeValueMore, []));
        return Some(docDecl.localize(BadAttributeValueWrapup, [att.qName, text]));
      }
      return None;
    }

    /** diagnoseMissingAttribute: the names of the attributes still required after feeding. */
    method DiagnoseMissingAttribute(e: Expression, tag: StartTag, c: Combined)
      returns (r: Result<Option<string>, Fault>)
      ensures r == MissingAttributeMessage(docDecl, e, tag, c)
    {
      if c.isComplex {
        return Normal(None);
      }
      var picked := docDecl.pickAttributes(e);
      if EpsilonReducible(picked) {
        return Thrown(AssertionFailure);
      }
      var p := picked;
      var items: set<string> := {};
      var more := false;
      WithNoNames(MissingNames(docDecl, picked));
      while p.Choice?
        invariant MissingNames(docDecl, picked) == WithNames(MissingNames(docDecl, p), items, more)
        decreases p
      {
        if !p.exp2.Attribute? {
          return Thrown(ClassCast);
        }
        var added := AddName(docDecl, CandidateSet(items, more), p.exp2.nameClass);
        WithNamesStep(docDecl, p, items, more);
        items, more := added.items, added.more;
        p := p.exp1;
      }
      if !p.Attribute? {
        return Thrown(AssertionFailure);
      }
      var added := AddName(docDecl, CandidateSet(items, more), p.nameClass);
      WithNamesLast(docDecl, p, items, more);
      items, more := added.items, added.more;
      if |items| == 0 {
        return Normal(None);
      }
      if |items| == 1 && !more {
        var x :| x in items;
        SingleIsMember(items, x);
        return Normal(Some(docDecl.localize(MissingAttributeSimple, [tag.qName, x])));
      }
      var text := ConcatenateMessages(items, more, docDecl.localize(MissingAttributeSeparator, []),
                                      docDecl.localize(MissingAttributeMore, []));
      r := Normal(Some(docDecl.localize(MissingAttributeWrapup, [tag.qName, text])));
    }

    /**
     * diagnoseUnexpectedLiteral: the message for a rejected literal, widening the state by
     * what a valid literal would have left when some literal was expected.
     */
    method DiagnoseUnexpectedLiteral(literal: string) returns (msg: Option<string>)
      modifies this
      ensures (expression, msg) == LiteralDiagnosis(docDecl, old(expression), literal)
    {
      var (recovered, failed) := docDecl.recoveryResidual(expression, literal);
      if recovered == NullSet {
        return Some(docDecl.localize(StringNotAllowed, []));
      }
      expression := docDecl.createChoice(expression, recovered);
      if |failed| == 1 {
        var dt :| dt in failed;
        SingleIsMember(failed, dt);
        var v := docDecl.checkValid(dt, literal);
        return if v.Invalid? then v.message else None;
      }
      var items: set<string> := {};
      var more := false;
      var rest := failed;
      while rest != {}
        invariant rest <= failed
        invariant forall x :: x in items <==> exists dt :: dt in failed - rest && LiteralValue(dt) == Some(x)
        invariant more <==> exists dt :: dt in failed - rest && LiteralValue(dt) == None
        decreases rest
      {
        var dt :| dt in rest;
        match LiteralValue(dt) {
          case Some(v) => items := items + {v};
          case None => more := true;
        }
        rest := rest - {dt};
      }
      assert items == LiteralCandidates(failed).items;
      if |items| == 0 {
        return None;
      }
      var text := ConcatenateMessages(items, more, docDecl.localize(BadLiteralSeparator, []),
                                      docDecl.localize(BadLiteralMore, []));
      msg := Some(docDecl.localize(BadLiteralWrapup, [text]));
    }

    /** diagnoseUncompletedContent: the names of the elements that could still come. */
    method DiagnoseUncompletedContent() returns (msg: Option<string>)
      ensures msg == UncompletedContentMessage(docDecl, expression)
    {
      var eoc := docDecl.combine(expression, None, false, false).elementsOfConcern;
      var items: set<string> := {};
      var more := false;
      var i := 0;
      while i < |eoc|
        invariant 0 <= i <= |eoc|
        invariant CandidateSet(items, more) == NameCandidates(docDecl, eoc[..i])
      {
        assert eoc[..i + 1][..i] == eoc[..i];
        match NameClassCandidate(docDecl, eoc[i].nameClass) {
          case Some(t) => items := items + {t};
          case None => more := true;
        }
        i := i + 1;
      }
      assert eoc[..i] == eoc;
      if |items| == 0 {
        return None;
      }
      var text := ConcatenateMessages(items, more, docDecl.localize(UncompletedContentSeparator, []),
                                      docDecl.localize(UncompletedContentMore, []));
      msg := Some(docDecl.localize(UncompletedContentWrapup, ["", text]));
    }
  }
}
