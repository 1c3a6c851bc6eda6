/**
 * The SAX content handler that drives validation: a stack of (acceptor, string care level)
 * frames pushed at every start tag and popped at every end tag, a buffer of pending text
 * checked according to the current care level, a sticky error flag, and ID/IDREF
 * bookkeeping cross-checked at the end of the document.
 *
 * The acceptors form their own abstract interface (`AcceptorOps`): each operation is a
 * function from the acceptor value to its result, and a diagnosing call also returns the
 * acceptor as the recovery left it.
 */
module Verifiers {
  import opened Wrappers
  import opened Expressions
  import opened NamespaceScopes
  import opened AcceptorSpec

  /** The verifier's own message keys (the ERR_* constants). */
  datatype VerifierMessage = UnexpectedText | UnexpectedStartTag | UncompletedContent | UnsoldIdref

  datatype AcceptorOps<!A> = AcceptorOps(
    /** DocumentDeclaration.createAcceptor */
    initial: A,
    /** createChildAcceptor without diagnosis: the child, or None */
    createChild: (A, StartTag) -> Option<A>,
    /** createChildAcceptor with diagnosis: the child (None if unrecoverable), the parent after recovery, a message */
    recoverChild: (A, StartTag) -> (Option<A>, A, Option<string>),
    /** getStringCareLevel */
    careLevel: A -> StringCareLevel,
    /** stepForward(text) without diagnosis: the advanced acceptor, or None */
    stepText: (A, string) -> Option<A>,
    /** stepForward(text) with diagnosis: the acceptor after recovery and a message */
    recoverText: (A, string) -> (A, Option<string>),
    /** isAcceptState */
    isAccept: A -> bool,
    /** stepForward(child) without diagnosis */
    stepChild: (A, A) -> Option<A>,
    /** stepForward(child) with diagnosis */
    recoverStepChild: (A, A) -> (A, Option<string>),
    /** localizeMessage */
    localize: (VerifierMessage, seq<string>) -> string)

  datatype Frame<A> = Frame(acceptor: A, careLevel: StringCareLevel)

  /**
   * How an event ends: normally, with a ValidationUnrecoverableException carrying the
   * violation, or with the failure of reporting to an absent error handler.
   */
  datatype Outcome = Continue | Unrecoverable(message: string) | MissingHandler

  /** The characters XML counts as white space. */
  predicate IsXmlSpace(c: char)
  {
    c == ' ' || c == '\t' || c == '\r' || c == '\n'
  }

  predicate HasNonSpace(s: string)
  {
    exists i :: 0 <= i < |s| && !IsXmlSpace(s[i])
  }

  /** The scan of verifyText in PROHIBITED mode: it stops at the first non-white-space character. */
  method ContainsNonSpace(s: string) returns (found: bool)
    ensures found <==> HasNonSpace(s)
  {
    var i := 0;
    while i < |s|
      invariant 0 <= i <= |s|
      invariant forall k :: 0 <= k < i ==> IsXmlSpace(s[k])
    {
      if !IsXmlSpace(s[i]) {
        return true;
      }
      i := i + 1;
    }
    return false;
  }

  /** The acceptor after verifyText: only STRICT text moves it. */
  function AfterText<A>(ops: AcceptorOps<A>, level: StringCareLevel, a: A, text: string): A
  {
    if |text| == 0 || level != Strict then a
    else match ops.stepText(a, text)
      case Some(b) => b
      case None => ops.recoverText(a, text).0
  }

  /** Whether verifyText finds an error in pending text. */
  predicate TextRejected<A>(ops: AcceptorOps<A>, level: StringCareLevel, a: A, text: string)
  {
    |text| != 0 &&
    ((level == Prohibited && HasNonSpace(text)) || (level == Strict && ops.stepText(a, text) == None))
  }

  /** The message verifyText reports for rejected text. */
  function TextMessage<A>(ops: AcceptorOps<A>, level: StringCareLevel, a: A, text: string): string
  {
    if level == Strict then
      match ops.recoverText(a, text).1
      case Some(m) => m
      case None => ops.localize(UnexpectedText, [])
    else ops.localize(UnexpectedText, [])
  }

  /** The messages verifyText passes to the error handler: one for rejected text, none otherwise. */
  function TextErrors<A>(ops: AcceptorOps<A>, level: StringCareLevel, a: A, text: string): seq<string>
  {
    if TextRejected(ops, level, a, text) then [TextMessage(ops, level, a, text)] else []
  }

  /** The buffer after verifyText went through: ignored text stays, checked text is consumed. */
  function TextLeft(level: StringCareLevel, text: string): string
  {
    if level == Ignore then text else ""
  }

  /** The messages for unmatched IDREFs, in the order they are reported. */
  function UnsoldMessages<A>(ops: AcceptorOps<A>, refs: seq<string>): (r: seq<string>)
    ensures |r| == |refs|
    ensures forall i :: 0 <= i < |refs| ==> r[i] == ops.localize(UnsoldIdref, [refs[i]])
  {
    if refs == [] then [] else UnsoldMessages(ops, refs[..|refs| - 1]) + [ops.localize(UnsoldIdref, [refs[|refs| - 1]])]
  }

  /** The IDREFs without a matching ID, each once, in set iteration order. */
  method UnmatchedIdrefs(idrefs: set<string>, ids: set<string>) returns (unsold: seq<string>)
    ensures forall x :: x in unsold <==> x in idrefs && x !in ids
    ensures |unsold| == |idrefs - ids|
  {
    unsold := [];
    var rest := idrefs;
    while rest != {}
      invariant rest <= idrefs
      invariant forall x :: x in unsold <==> x in idrefs - rest && x !in ids
      invariant |unsold| == |(idrefs - rest) - ids|
      decreases rest
    {
      var r :| r in rest;
      if r !in ids {
        assert (idrefs - (rest - {r})) - ids == ((idrefs - rest) - ids) + {r};
        unsold := unsold + [r];
      } else {
        assert (idrefs - (rest - {r})) - ids == (idrefs - rest) - ids;
      }
      rest := rest - {r};
    }
    assert idrefs - rest == idrefs;
  }

  class Verifier<A> {
    const ops: AcceptorOps<A>
    /** whether an error handler was given */
    const hasHandler: bool
    var current: A
    /** the context stack, innermost frame last */
    var stack: seq<Frame<A>>
    var careLevel: StringCareLevel
    /** characters read but not yet checked */
    var text: string
    var hadError: bool
    var ids: set<string>
    var idrefs: set<string>
    /** the violations passed to the error handler, in order */
    var errors: seq<string>
    var scopes: Scopes
    var unparsedEntities: set<string>

    /** One namespace context per open element, above the base context. */
    ghost predicate Valid()
      reads this
    {
      |scopes| == |stack| + 1
    }

    constructor(ops: AcceptorOps<A>, hasHandler: bool)
      ensures this.ops == ops && this.hasHandler == hasHandler
      ensures current == ops.initial && stack == [] && careLevel == Strict && text == ""
      ensures !hadError && ids == {} && idrefs == {} && errors == []
      ensures scopes == Initial() && unparsedEntities == {}
      ensures Valid()
    {
      this.ops := ops;
      this.hasHandler := hasHandler;
      current := ops.initial;
      stack := [];
      careLevel := Strict;
      text := "";
      hadError := false;
      ids := {};
      idrefs := {};
      errors := [];
      scopes := Initial();
      unparsedEntities := {};
    }

    /** isValid: no error was found since the document started. */
    function IsValid(): (r: bool)
      reads this
      ensures r <==> !hadError
    {
      !hadError
    }

    /** errorHandler.onError: the violation is recorded, or reporting fails without a handler. */
    method Report(message: string) returns (o: Outcome)
      modifies this`errors
      ensures hasHandler ==> o == Continue && errors == old(errors) + [message]
      ensures !hasHandler ==> o == MissingHandler && errors == old(errors)
    {
      if hasHandler {
        errors := errors + [message];
        return Continue;
      }
      return MissingHandler;
    }

    /**
     * verifyText: pending text is ignored, checked for white space only, or fed to the
     * acceptor, according to the care level; the buffer is emptied after checking.
     */
    method VerifyText() returns (o: Outcome)
      modifies this`current, this`text, this`hadError, this`errors
      ensures current == AfterText(ops, careLevel, old(current), old(text))
      ensures hadError == (old(hadError) || TextRejected(ops, careLevel, old(current), old(text)))
      ensures TextRejected(ops, careLevel, old(current), old(text)) ==>
        (hasHandler ==> o == Continue && errors == old(errors) + [TextMessage(ops, careLevel, old(current), old(text))])
        && (!hasHandler ==> o == MissingHandler && errors == old(errors) && text == old(text))
      ensures !TextRejected(ops, careLevel, old(current), old(text)) ==> o == Continue && errors == old(errors)
      ensures o == Continue ==> text == (if careLevel == Ignore then old(text) else "")
    {
      o := Continue;
      if |text| != 0 {
        match careLevel {
          case Ignore =>
            return;
          case Prohibited =>
            var found := ContainsNonSpace(text);
            if found {
              hadError := true;
              o := Report(ops.localize(UnexpectedText, []));
              if o != Continue {
                return;
              }
            }
          case Strict =>
            var stepped := ops.stepText(current, text);
            if stepped.Some? {
              current := stepped.value;
            } else {
              hadError := true;
              var (recovered, m) := ops.recoverText(current, text);
              current := recovered;
              o := Report(if m.Some? then m.value else ops.localize(UnexpectedText, []));
              if o != Continue {
                return;
              }
            }
        }
        text := "";
      }
    }

    /**
     * startElement: push a namespace context, check pending text, push a frame holding the
     * parent and its care level, then make the child current. A rejected tag sets the error
     * flag and recovers; validation stops when there is no handler or no recovery.
     */
    method StartElement(tag: StartTag) returns (o: Outcome)
      requires Valid()
      modifies this`scopes, this`current, this`text, this`hadError, this`errors, this`stack, this`careLevel
      ensures scopes == Push(old(scopes))
      ensures old(hadError) ==> hadError
      ensures TextRejected(ops, old(careLevel), old(current), old(text)) && !hasHandler ==>
        o == MissingHandler && stack == old(stack) && hadError && errors == old(errors) && text == old(text)
      ensures o != MissingHandler ==>
        var parent := AfterText(ops, old(careLevel), old(current), old(text));
        var textErrors := TextErrors(ops, old(careLevel), old(current), old(text));
        Valid() && |stack| == |old(stack)| + 1 && stack[..|old(stack)|] == old(stack)
        && stack[|old(stack)|].careLevel == old(careLevel)
        && text == TextLeft(old(careLevel), old(text))
        && hadError == (old(hadError) || TextRejected(ops, old(careLevel), old(current), old(text))
                        || ops.createChild(parent, tag).None?)
        && match ops.createChild(parent, tag)
          case Some(child) =>
            o == Continue && stack[|old(stack)|].acceptor == parent
            && current == child && careLevel == ops.careLevel(child)
            && errors == old(errors) + textErrors
          case None =>
            var (next, recovered, m) := ops.recoverChild(parent, tag);
            var violation := OrGeneric(m, ops.localize(UnexpectedStartTag, [tag.qName]));
            stack[|old(stack)|].acceptor == recovered
            && (o == Continue <==> hasHandler && next.Some?)
            && (o == Continue ==> current == next.value && careLevel == ops.careLevel(next.value))
            && (o != Continue ==> o == Unrecoverable(violation))
            && errors == old(errors) + textErrors + (if hasHandler then [violation] else [])
    {
      scopes := Push(scopes);
      o := VerifyText();
      if o != Continue {
        return;
      }
      stack := stack + [Frame(current, careLevel)];
      var next := ops.createChild(current, tag);
      if next.None? {
        hadError := true;
        var (child, recovered, m) := ops.recoverChild(current, tag);
        // the frame shares the parent object that recovery updated
        stack := stack[|stack| - 1 := Frame(recovered, stack[|stack| - 1].careLevel)];
        current := recovered;
        var violation := OrGeneric(m, ops.localize(UnexpectedStartTag, [tag.qName]));
        if hasHandler {
          errors := errors + [violation];
        }
        if !hasHandler || child.None? {
          return Unrecoverable(violation);
        }
        next := child;
      }
      careLevel := ops.careLevel(next.value);
      current := next.value;
    }

    /**
     * endElement: pop the namespace context, check pending text, report an uncompleted
     * content model, then pop the frame, restore the parent and its care level, and step the
     * parent over the finished child (recovering when it refuses).
     */
    method EndElement(qName: string) returns (o: Outcome)
      requires Valid() && |stack| >= 1
      modifies this`scopes, this`current, this`text, this`hadError, this`errors, this`stack, this`careLevel
      ensures scopes == Pop(old(scopes))
      ensures old(hadError) ==> hadError
      ensures o == MissingHandler ==> hadError && errors == old(errors)
      ensures o != MissingHandler ==>
        var child := AfterText(ops, old(careLevel), old(current), old(text));
        var frame := old(stack)[|old(stack)| - 1];
        var uncompleted := ops.localize(UncompletedContent, [qName]);
        o == Continue && Valid()
        && stack == old(stack)[..|old(stack)| - 1] && careLevel == frame.careLevel
        && text == TextLeft(old(careLevel), old(text))
        && hadError == (old(hadError) || TextRejected(ops, old(careLevel), old(current), old(text))
                        || !ops.isAccept(child) || ops.stepChild(frame.acceptor, child).None?)
        && match ops.stepChild(frame.acceptor, child)
          case Some(next) =>
            current == next
            && errors == old(errors) + TextErrors(ops, old(careLevel), old(current), old(text))
                 + (if ops.isAccept(child) then [] else [uncompleted])
          case None =>
            var (recovered, m) := ops.recoverStepChild(frame.acceptor, child);
            current == recovered
            && errors == old(errors) + TextErrors(ops, old(careLevel), old(current), old(text))
                 + (if ops.isAccept(child) then [] else [uncompleted])
                 + (if hasHandler then [OrGeneric(m, uncompleted)] else [])
      ensures !hasHandler && TextRejected(ops, old(careLevel), old(current), old(text)) ==> o == MissingHandler
      ensures !hasHandler && !ops.isAccept(AfterText(ops, old(careLevel), old(current), old(text))) ==> o == MissingHandler
    {
      scopes := Pop(scopes);
      o := VerifyText();
      if o != Continue {
        return;
      }
      if !ops.isAccept(current) {
        hadError := true;
        o := Report(ops.localize(UncompletedContent, [qName]));
        if o != Continue {
          return;
        }
      }
      PopFrame(qName);
    }

    /**
     * The second half of endElement: restore the parent and its care level from the top
     * frame and step the parent over the finished child, recovering when it refuses.
     */
    method PopFrame(qName: string)
      requires |stack| >= 1
      modifies this`current, this`hadError, this`errors, this`stack, this`careLevel
      ensures
        var frame := old(stack)[|old(stack)| - 1];
        stack == old(stack)[..|old(stack)| - 1] && careLevel == frame.careLevel
        && hadError == (old(hadError) || ops.stepChild(frame.acceptor, old(current)).None?)
        && match ops.stepChild(frame.acceptor, old(current))
          case Some(next) => current == next && errors == old(errors)
          case None =>
            var (recovered, m) := ops.recoverStepChild(frame.acceptor, old(current));
            current == recovered
            && errors == old(errors) + (if hasHandler then [OrGeneric(m, ops.localize(UncompletedContent, [qName]))] else [])
    {
      var child := current;
      var frame := stack[|stack| - 1];
      current := frame.acceptor;
      careLevel := frame.careLevel;
      stack := stack[..|stack| - 1];
      var next := ops.stepChild(current, child);
      if next.Some? {
        current := next.value;
      } else {
        hadError := true;
        var (recovered, m) := ops.recoverStepChild(current, child);
        current := recovered;
        if hasHandler {
          errors := errors + [OrGeneric(m, ops.localize(UncompletedContent, [qName]))];
        }
      }
    }

    /** characters: buffered unless the care level says text is ignored. */
    method Characters(chars: string)
      modifies this`text
      ensures text == old(text) + (if careLevel != Ignore then chars else "")
    {
      if careLevel != Ignore {
        text := text + chars;
      }
    }

    /** ignorableWhitespace is buffered exactly like characters. */
    method IgnorableWhitespace(chars: string)
      modifies this`text
      ensures text == old(text) + (if careLevel != Ignore then chars else "")
    {
      Characters(chars);
    }

    /** startPrefixMapping: the binding goes into the innermost context open at this point. */
    method StartPrefixMapping(prefix: string, uri: string)
      requires Valid()
      modifies this`scopes
      ensures scopes == Declare(old(scopes), prefix, uri)
      ensures Valid()
    {
      scopes := Declare(scopes, prefix, uri);
    }

    /** resolveNamespacePrefix */
    function ResolveNamespacePrefix(prefix: string): (r: Option<string>)
      reads this
      ensures r.None? <==> forall k :: 0 <= k < |scopes| ==> prefix !in scopes[k]
      ensures r.Some? ==>
        exists k :: 0 <= k < |scopes| && prefix in scopes[k] && scopes[k][prefix] == r.value
          && forall j :: k < j < |scopes| ==> prefix !in scopes[j]
    {
      ResolveInnermost(scopes, prefix);
      Resolve(scopes, prefix)
    }

    /**
     * startDocument: a fresh acceptor, no error, no IDs or IDREFs. The stack, the buffer, the
     * care level and the namespace contexts are kept.
     */
    method StartDocument()
      modifies this`current, this`hadError, this`ids, this`idrefs
      ensures current == ops.initial && !hadError && ids == {} && idrefs == {}
    {
      current := ops.initial;
      hadError := false;
      ids := {};
      idrefs := {};
    }

    /**
     * endDocument: every IDREF without a matching ID is an error, reported once each; the
     * order of the reports is the iteration order of the set, here `unsold`.
     */
    method EndDocument() returns (o: Outcome, ghost unsold: seq<string>)
      modifies this`hadError, this`errors
      ensures hadError == (old(hadError) || !(idrefs <= ids))
      ensures o == MissingHandler <==> !hasHandler && !(idrefs <= ids)
      ensures o != MissingHandler ==> o == Continue
      ensures o == Continue ==>
        (forall x :: x in unsold <==> x in idrefs && x !in ids)
        && |unsold| == |idrefs - ids|
        && errors == old(errors) + UnsoldMessages(ops, unsold)
    {
      o := Continue;
      unsold := [];
      if !(idrefs <= ids) {
        hadError := true;
        var missing := UnmatchedIdrefs(idrefs, ids);
        var x :| x in idrefs && x !in ids;
        assert x in missing;
        var i := 0;
        while i < |missing|
          invariant 0 <= i <= |missing|
          invariant o == Continue && hadError
          invariant !hasHandler ==> i == 0
          invariant errors == old(errors) + UnsoldMessages(ops, missing[..i])
        {
          assert missing[..i + 1][..i] == missing[..i];
          o := Report(ops.localize(UnsoldIdref, [missing[i]]));
          if o != Continue {
            return;
          }
          i := i + 1;
        }
        assert missing[..i] == missing;
        unsold := missing;
      } else {
        assert idrefs - ids == {};
      }
    }

    /** onIDREF: the token is remembered. */
    method OnIdref(token: string)
      modifies this`idrefs
      ensures idrefs == old(idrefs) + {token}
    {
      idrefs := idrefs + {token};
    }

    /** onID: false iff the token was seen before; afterwards it is recorded. */
    method OnId(token: string) returns (unique: bool)
      modifies this`ids
      ensures unique <==> token !in old(ids)
      ensures ids == old(ids) + {token}
    {
      if token in ids {
        return false;
      }
      ids := ids + {token};
      return true;
    }

    /** unparsedEntityDecl: the entity's name is remembered. */
    method UnparsedEntityDecl(name: string)
      modifies this`unparsedEntities
      ensures unparsedEntities == old(unparsedEntities) + {name}
    {
      unparsedEntities := unparsedEntities + {name};
    }

    /** isUnparsedEntity: whether the name was declared as an unparsed entity. */
    function IsUnparsedEntity(name: string): (r: bool)
      reads this
      ensures r <==> name in unparsedEntities
    {
      name in unparsedEntities
    }
  }
}
