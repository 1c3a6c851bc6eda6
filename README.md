# MSV validation core in Dafny

This project models the core of MSV, the Sun Multi-Schema XML Validator, and proves properties of that model. It covers these parts:

- **Acceptor** (`ExpressionAcceptor`). The acceptor holds one "remaining language" expression.
  - It steps that expression forward over tokens.
  - It replaces it by a child's continuation.
  - It decides acceptance by epsilon-reducibility.
  - It builds recovery acceptors after an error.
  - It writes diagnoses as sorted candidate lists.
- **Verifier drivers.**
  - The older `Verifier` keeps a stack of (acceptor, string care level) frames, a text buffer, a sticky error flag and flat ID/IDREF sets.
  - `AbstractVerifier` keeps per-name ID/IDREF tables, pushes the namespace context once per element, and records notations and unparsed entities.
- **Name classes.** `LocalNameClass` and `DifferenceNameClass`.
- **The `scale` facet** of XML Schema decimals: its digit-counting loop, its lexical check, its diagnosis, and the check that a derived facet does not loosen its base.
- **`IgnoreState`.** A depth counter that skips a subtree while a grammar is being read.
- **Expression rewriters.** `NoneTypeRemover` and `PrimitiveTypeAnnotator` work over an expression graph that they mutate in place. The graph may be cyclic, and their visited sets and memo tables make them terminate.
- **XML Schema attribute lowering** (`AttributeState`). It lowers an attribute declaration (`ref`, `type`, `fixed`, `use`, global or local) to an expression, as section 3.2 of W3C XML Schema Part 1 describes.

## How each part is modelled

**Acceptor.**
- Expressions are values of the `Expressions.Expression` datatype.
- Algorithms the source calls but does not define are function-valued fields of `AcceptorSpec.DocDecl`. These are:
  - the residual calculator;
  - the combined child content creator, both `get` and `continueGet` (which appends to the previous result);
  - the attribute feeder, remover and picker;
  - `ExpressionPool.createChoice`;
  - the string care level calculator;
  - `Datatype.checkValid`;
  - message localisation.
- `createChoice` is not simplified: `mergeContinuation` and recovery are stated in terms of that abstract function.
- The acceptor is a class whose `expression` field its methods reassign.
- The `verifierTag` cache is a class holding a map.

**`Verifier`.**
- It is modelled against its own abstract acceptor interface, `Verifiers.AcceptorOps<A>`. Its calls do not match the newer `ExpressionAcceptor` signatures.
- An error handler is present or absent. A report without one is the `MissingHandler` outcome, which stands for the thrown exception.

**Rewriters.**
- They work on `ExpressionGraphs.Graph`, a class holding `nodes: map<Id, Node>`.
- Ghost ranks make the recursion well founded. Every node that is not a "cut" has children of smaller rank. The cuts are elements, plus references and wrappers that a rewrite redirected to a larger-ranked child.
- The visit of a cut spends one unvisited cut, and any other visit descends in rank.

**Non-ASCII and encoding.** Strings are sequences of characters, and `String.compareTo` is lexicographic order on characters. Java compares UTF-16 code units and Dafny compares Unicode scalar values, so the two orders differ only between characters above U+FFFF and those from U+E000 to U+FFFF.

## Model

| member | source | states |
|---|---|---|
| NameClasses.LocalNameText | msv/src/com/sun/msv/grammar/dtd/LocalNameClass.java:32-38 | the text of a local name class is exactly the local name the constructor stored |
| NameClasses.LocalNameIgnoresNamespace | msv/src/com/sun/msv/grammar/dtd/LocalNameClass.java:24-26 | acceptance by a local name class gives the same answer for any two namespace URIs |
| NameClasses.LocalNameAcceptsExactly | msv/src/com/sun/msv/grammar/dtd/LocalNameClass.java:24-26 | a local name class accepts a name iff its local part equals the stored name or is the wildcard "*" |
| NameClasses.DifferenceAcceptsExactly | msv/src/com/sun/msv/grammar/trex/DifferenceNameClass.java:10-14 | the difference accepts a name iff the first class accepts it and the second does not |
| NameClasses.DifferenceBounds | msv/src/com/sun/msv/grammar/trex/DifferenceNameClass.java:12-13 | every name the difference accepts is accepted by the first class; no name the second class accepts is accepted by the difference |
| NameClasses.DifferenceWithItselfIsEmpty | msv/src/com/sun/msv/grammar/trex/DifferenceNameClass.java:12-13 | the difference of a class with itself accepts no name |
| Expressions.ChoiceChildren | msv/src/com/sun/msv/verifier/regexp/ExpressionAcceptor.java:624-625 | the branches of a nest of choices: at least one, none of them a choice, each smaller than the choice; a non-choice is its own only branch |
| Expressions.ChoiceChildrenEpsilon | msv/src/com/sun/msv/verifier/regexp/ExpressionAcceptor.java:166-175 | a nest of choices accepts the empty sequence iff one of its branches does |
| AcceptorSpec.Advanced | msv/src/com/sun/msv/verifier/regexp/ExpressionAcceptor.java:103-110 | the candidate state is the residual by the token, and for an ignorable token the choice of that residual and the old state |
| AcceptorSpec.MergeContinuation | msv/src/com/sun/msv/verifier/regexp/ExpressionAcceptor.java:198-204 | both absent gives absent; an absent or nullSet side yields the other side; otherwise the choice of both; the result is absent iff both sides are absent or nullSet with the second absent |
| AcceptorSpec.RecoverySpec | msv/src/com/sun/msv/verifier/regexp/ExpressionAcceptor.java:222-266 | the recovery acceptor has a continuation and no elements of concern; its continuation is the merge of the combined continuation of the old state and of the continued combination over the state after any element, or the widened state when that merge is absent or nullSet |
| AcceptorSpec.FirstRejected | msv/src/com/sun/msv/verifier/regexp/ExpressionAcceptor.java:325-368 | the index of the first rejected attribute, when there is one, lies within the attribute list |
| AcceptorSpec.FirstRejectedExactly | msv/src/com/sun/msv/verifier/regexp/ExpressionAcceptor.java:325-368 | no rejection means every prefix of the attributes was fed without reaching nullSet; a rejection at i means the first i were accepted and feeding attribute i gave nullSet |
| AcceptorSpec.NameCandidatesExactly | msv/src/com/sun/msv/verifier/regexp/ExpressionAcceptor.java:483-522 | the collected tag-name candidates are exactly the texts of the name classes that have one, and "more" is set iff some name class has none |
| AcceptorSpec.WrongNamespaceExactly | msv/src/com/sun/msv/verifier/regexp/ExpressionAcceptor.java:488-497 | a wrong namespace is reported iff some simple name class has the tag's local name, and it is the namespace of the last such class |
| AcceptorSpec.Dereferenced | msv/src/com/sun/msv/verifier/regexp/ExpressionAcceptor.java:582-584 | resolving references yields a non-reference, and leaves a non-reference unchanged |
| AcceptorSpec.OrGeneric | msv/src/com/sun/msv/verifier/Verifier.java:171-180 | a diagnosis that exists is used as the message; otherwise the generic message is used |
| AcceptorSpec.WithNamesStep | msv/src/com/sun/msv/verifier/regexp/ExpressionAcceptor.java:662-719 | walking one more choice off the spine of remaining attributes moves that attribute's name into the collected names |
| AcceptorSpec.WithNamesLast | msv/src/com/sun/msv/verifier/regexp/ExpressionAcceptor.java:662-719 | the attribute at the end of the spine contributes the last name, and the walk ends normally |
| Candidates.BelowTotal | msv/src/com/sun/msv/verifier/regexp/ExpressionAcceptor.java:399-405 | the string order used for sorting is total |
| Candidates.BelowTransitive | msv/src/com/sun/msv/verifier/regexp/ExpressionAcceptor.java:399-405 | the string order used for sorting is transitive |
| Candidates.BelowAntisymmetric | msv/src/com/sun/msv/verifier/regexp/ExpressionAcceptor.java:399-405 | two strings ordered both ways are equal |
| Candidates.ArrangementUnique | msv/src/com/sun/msv/verifier/regexp/ExpressionAcceptor.java:399-405 | a set of candidates has only one strictly ascending arrangement, so the sorted list is determined by the set |
| Candidates.Least | msv/src/com/sun/msv/verifier/regexp/ExpressionAcceptor.java:399-405 | returns a member of a non-empty set that is below every member |
| Candidates.SortCandidates | msv/src/com/sun/msv/verifier/regexp/ExpressionAcceptor.java:399-422 | returns the candidates of the set, each once, in strictly ascending order |
| Candidates.JoinCandidates | msv/src/com/sun/msv/verifier/regexp/ExpressionAcceptor.java:407-411 | the join loop builds the text where a separator precedes an item exactly when the text so far is non-empty |
| Candidates.BuiltTextSeparates | msv/src/com/sun/msv/verifier/regexp/ExpressionAcceptor.java:407-411 | when no candidate is empty, the join puts exactly one separator between each two neighbours, and a non-empty list gives non-empty text |
| Candidates.EmptyCandidateDropsSeparator | msv/src/com/sun/msv/verifier/regexp/ExpressionAcceptor.java:409 | an empty first candidate loses the separator after it: ["", "yes"] joins to "yes", not ", yes" |
| Candidates.Sorted | msv/src/com/sun/msv/verifier/regexp/ExpressionAcceptor.java:399-405 | the sorted candidates are an ascending arrangement of the set |
| Candidates.ConcatenationLists | msv/src/com/sun/msv/verifier/regexp/ExpressionAcceptor.java:393-416 | without empty candidates, the message is the sorted candidates separated once each, followed by the "more" text iff more is set |
| Candidates.ConcatenateMessages | msv/src/com/sun/msv/verifier/regexp/ExpressionAcceptor.java:393-422 | returns the sorted candidates joined, then the "more" text iff more is set |
| ExpressionAcceptors.OptimizationTags.constructor | msv/src/com/sun/msv/verifier/regexp/ExpressionAcceptor.java:177-187 | the cache of string care levels starts empty |
| ExpressionAcceptors.ExpressionAcceptor.constructor | msv/src/com/sun/msv/verifier/regexp/ExpressionAcceptor.java:44-47 | stores the document declaration and the initial state |
| ExpressionAcceptors.ExpressionAcceptor.CreateChildAcceptor | msv/src/com/sun/msv/verifier/regexp/ExpressionAcceptor.java:60-94 | an accepted tag gives a child acceptor over the combined content, with its continuation, and leaves the state unchanged; a rejected tag gives none without diagnosis, or else the recovery acceptor, the diagnosis and the widened state |
| ExpressionAcceptors.ExpressionAcceptor.StepForward | msv/src/com/sun/msv/verifier/regexp/ExpressionAcceptor.java:103-142 | succeeds iff the candidate state is not nullSet, and then the state becomes it; a failure leaves the state unchanged unless a literal is being diagnosed, in which case the state and message are those of the literal diagnosis |
| ExpressionAcceptors.ExpressionAcceptor.StepForwardLiteral | msv/src/com/sun/msv/verifier/regexp/ExpressionAcceptor.java:144-146 | stepping over a literal is stepping over the string token made from it |
| ExpressionAcceptors.ExpressionAcceptor.StepForwardByContinuation | msv/src/com/sun/msv/verifier/regexp/ExpressionAcceptor.java:148-162 | succeeds iff the continuation is not nullSet; on success the state becomes the continuation, otherwise it is unchanged |
| ExpressionAcceptors.ExpressionAcceptor.IsAcceptState | msv/src/com/sun/msv/verifier/regexp/ExpressionAcceptor.java:166-175 | the result is the epsilon-reducibility of the state whether or not a diagnosis is asked for; a message is written only on a false result with a diagnosis asked for, and it is the uncompleted-content diagnosis |
| ExpressionAcceptors.ExpressionAcceptor.GetStringCareLevel | msv/src/com/sun/msv/verifier/regexp/ExpressionAcceptor.java:177-187 | the level is the calculator's level for the state; it is recorded in the cache, and every cached level stays the calculator's |
| ExpressionAcceptors.ExpressionAcceptor.CreateRecoveryAcceptors | msv/src/com/sun/msv/verifier/regexp/ExpressionAcceptor.java:222-266 | the state is widened and the returned acceptor is the recovery specification of the old state |
| ExpressionAcceptors.ExpressionAcceptor.FeedAttributes | msv/src/com/sun/msv/verifier/regexp/ExpressionAcceptor.java:325-368 | reports the first rejected attribute and the content after feeding every attribute before it, or after all of them when none is rejected |
| ExpressionAcceptors.ExpressionAcceptor.PrefixRejection | msv/src/com/sun/msv/verifier/regexp/ExpressionAcceptor.java:325-368 | a rejection within a prefix of the attributes is the first rejection of the whole list |
| ExpressionAcceptors.ExpressionAcceptor.Recover | msv/src/com/sun/msv/verifier/regexp/ExpressionAcceptor.java:268-384 | on normal completion returns the recovery acceptor and the recovery message and widens the state; a fault leaves the state unchanged and gives no message |
| ExpressionAcceptors.ExpressionAcceptor.DiagnoseBadTagName | msv/src/com/sun/msv/verifier/regexp/ExpressionAcceptor.java:454-547 | returns the bad-tag-name message: none for complex content or no candidates, a wrong-namespace hint when a simple name class has the local name, else the sorted candidate list |
| ExpressionAcceptors.ExpressionAcceptor.DiagnoseBadAttributeValue | msv/src/com/sun/msv/verifier/regexp/ExpressionAcceptor.java:561-649 | returns the bad-attribute-value message for the dereferenced failed constraint: undeclared for none, the datatype's message for a typed string, the enumerated values for a choice, none otherwise |
| ExpressionAcceptors.ExpressionAcceptor.DiagnoseMissingAttribute | msv/src/com/sun/msv/verifier/regexp/ExpressionAcceptor.java:662-719 | returns the missing-attribute message over the names of the attributes still required, or the fault the source's assertions and casts raise |
| ExpressionAcceptors.ExpressionAcceptor.DiagnoseUnexpectedLiteral | msv/src/com/sun/msv/verifier/regexp/ExpressionAcceptor.java:724-811 | the new state and message are those of the literal diagnosis of the old state |
| ExpressionAcceptors.ExpressionAcceptor.DiagnoseUncompletedContent | msv/src/com/sun/msv/verifier/regexp/ExpressionAcceptor.java:817-864 | returns the uncompleted-content message for the state |
| Verifiers.ContainsNonSpace | msv/src/com/sun/msv/verifier/Verifier.java:97-111 | true iff the text holds a character other than space, tab, carriage return and line feed |
| Verifiers.UnsoldMessages | msv/src/com/sun/msv/verifier/Verifier.java:279-286 | one unsold-IDREF message per unmatched reference, in order |
| Verifiers.UnmatchedIdrefs | msv/src/com/sun/msv/verifier/Verifier.java:276-286 | lists each IDREF with no matching ID exactly once |
| Verifiers.Verifier.constructor | msv/src/com/sun/msv/verifier/Verifier.java:37-84 | an empty stack and text buffer, strict text, no error, no IDs or IDREFs, the initial namespace scopes; the current acceptor is set to the initial one already (see Left out) |
| Verifiers.Verifier.IsValid | msv/src/com/sun/msv/verifier/Verifier.java:62 | valid iff no error was recorded |
| Verifiers.Verifier.Report | msv/src/com/sun/msv/verifier/Verifier.java:182-186 | with a handler the message is appended and verification continues; without one nothing is appended and verification aborts |
| Verifiers.Verifier.VerifyText | msv/src/com/sun/msv/verifier/Verifier.java:86-139 | the acceptor becomes its state after the buffered text; the error flag is set iff it was set or the text is rejected at the current level; a rejection reports one message; after continuing, the buffer is empty unless text is ignored |
| Verifiers.Verifier.StartElement | msv/src/com/sun/msv/verifier/Verifier.java:141-191 | first checks the buffered text; pushes one namespace context and one frame holding the parent and the old level, and the child and its level become current; the error flag becomes the old flag, or the text was rejected, or no child was created for the tag; the errors gain the text message when the text was rejected, then the violation when no child was created and a handler is present; the buffer is emptied unless text was ignored; with no handler a report aborts |
| Verifiers.Verifier.EndElement | msv/src/com/sun/msv/verifier/Verifier.java:193-240 | first checks the buffered text; pops one namespace context and one frame, restoring its level; the error flag becomes the old flag, or the text was rejected, or the child is not accepting, or the parent cannot step over it; the errors gain, in that order, the text message, the uncompleted-content message and the parent's step message with a handler present; the parent stepped over the child (or recovered) becomes current; the buffer is emptied unless text was ignored |
| Verifiers.Verifier.PopFrame | msv/src/com/sun/msv/verifier/Verifier.java:214-239 | pops the top frame and restores its level; the error flag is set iff it was set or the parent cannot step over the child; the parent stepped over the child becomes current, or else its recovered state, with the step message appended when a handler is present |
| Verifiers.Verifier.Characters | msv/src/com/sun/msv/verifier/Verifier.java:242-246 | appends the characters to the buffer iff text is not ignored |
| Verifiers.Verifier.IgnorableWhitespace | msv/src/com/sun/msv/verifier/Verifier.java:247-251 | appends the whitespace to the buffer iff text is not ignored |
| Verifiers.Verifier.StartPrefixMapping | msv/src/com/sun/msv/verifier/Verifier.java:259-262 | declares the prefix in the innermost namespace context, without pushing one |
| Verifiers.Verifier.ResolveNamespacePrefix | msv/src/com/sun/msv/verifier/Verifier.java:308-311 | a prefix resolves iff some namespace context binds it, and then to its binding in the innermost context that binds it |
| Verifiers.Verifier.StartDocument | msv/src/com/sun/msv/verifier/Verifier.java:265-272 | resets the acceptor to the initial one and clears the error flag, IDs and IDREFs |
| Verifiers.Verifier.EndDocument | msv/src/com/sun/msv/verifier/Verifier.java:273-288 | sets the error flag iff some IDREF has no matching ID, and reports one message per such IDREF; it aborts iff there is such an IDREF and no handler |
| Verifiers.Verifier.OnIdref | msv/src/com/sun/msv/verifier/Verifier.java:317 | adds the token to the IDREFs |
| Verifiers.Verifier.OnId | msv/src/com/sun/msv/verifier/Verifier.java:318-323 | returns false iff the token was already an ID; afterwards it is one |
| Verifiers.Verifier.UnparsedEntityDecl | msv/src/com/sun/msv/verifier/Verifier.java:291-294 | records the entity name |
| Verifiers.Verifier.IsUnparsedEntity | msv/src/com/sun/msv/verifier/Verifier.java:312-315 | true iff the name was declared as an unparsed entity |
| AbstractVerifiers.AddToken | msv/src/com/sun/msv/verifier/AbstractVerifier.java:114-128 | adding a token puts it in its name's set, creating the set on first use, and leaves every other name's set unchanged |
| AbstractVerifiers.AddTokenIdempotent | msv/src/com/sun/msv/verifier/AbstractVerifier.java:114-119 | adding the same token twice under the same name changes nothing the second time |
| AbstractVerifiers.AbstractVerifier.constructor | msv/src/com/sun/msv/verifier/AbstractVerifier.java:45-56 | starts with empty ID and IDREF tables, no pending context push, the initial namespace scopes, and no notations or entities |
| AbstractVerifiers.AbstractVerifier.StartPrefixMapping | msv/src/com/sun/msv/verifier/AbstractVerifier.java:57-63 | pushes a namespace context only if none is pending, then declares the prefix in it; a push is pending afterwards |
| AbstractVerifiers.AbstractVerifier.StartElement | msv/src/com/sun/msv/verifier/AbstractVerifier.java:66-70 | pushes a context only if no prefix mapping already pushed one, so each element gets exactly one; no push is pending afterwards |
| AbstractVerifiers.AbstractVerifier.EndElement | msv/src/com/sun/msv/verifier/AbstractVerifier.java:72-74 | pops one namespace context |
| AbstractVerifiers.AbstractVerifier.ResolveNamespacePrefix | msv/src/com/sun/msv/verifier/AbstractVerifier.java:104-106 | a prefix resolves iff some namespace context binds it, and then to its binding in the innermost context that binds it |
| AbstractVerifiers.AbstractVerifier.Init | msv/src/com/sun/msv/verifier/AbstractVerifier.java:76-79 | empties the ID and IDREF tables |
| AbstractVerifiers.AbstractVerifier.NotationDecl | msv/src/com/sun/msv/verifier/AbstractVerifier.java:81-83 | records the notation name |
| AbstractVerifiers.AbstractVerifier.UnparsedEntityDecl | msv/src/com/sun/msv/verifier/AbstractVerifier.java:84-87 | records the entity name |
| AbstractVerifiers.AbstractVerifier.IsNotation | msv/src/com/sun/msv/verifier/AbstractVerifier.java:110-112 | true iff the name was declared as a notation |
| AbstractVerifiers.AbstractVerifier.IsUnparsedEntity | msv/src/com/sun/msv/verifier/AbstractVerifier.java:107-109 | true iff the name was declared as an unparsed entity |
| AbstractVerifiers.AbstractVerifier.OnIdref | msv/src/com/sun/msv/verifier/AbstractVerifier.java:114-119 | adds the token to the IDREF set of its (uri, local) name |
| AbstractVerifiers.AbstractVerifier.OnId | msv/src/com/sun/msv/verifier/AbstractVerifier.java:120-128 | returns false iff the token is already an ID under the same (uri, local) name; afterwards it is one under that name only |
| NamespaceScopes.PopPush | msv/src/com/sun/msv/verifier/AbstractVerifier.java:66-74 | popping a context just pushed restores the scopes |
| NamespaceScopes.ResolvePush | msv/src/com/sun/msv/verifier/AbstractVerifier.java:66-70 | a fresh context resolves every prefix as its parent does |
| NamespaceScopes.ResolveDeclare | msv/src/com/sun/msv/verifier/AbstractVerifier.java:62 | a declared prefix resolves to its URI, and other prefixes resolve as before |
| NamespaceScopes.ResolveInnermost | msv/src/com/sun/msv/verifier/Verifier.java:308-311 | a prefix resolves iff some context binds it, and then to its binding in the innermost such context |
| NamespaceScopes.DeclaredBeforePushOutlivesElement | msv/src/com/sun/msv/verifier/Verifier.java:147-262 | a prefix declared before the element's context is pushed still resolves after the element ends |
| NamespaceScopes.DeclaredAfterPushEndsWithElement | msv/src/com/sun/msv/verifier/AbstractVerifier.java:57-74 | a prefix declared in the element's own context resolves inside it and is gone after the element ends |
| ScaleFacets.FractionAfterFirstDot | xsdlib/src/com/sun/msv/datatype/xsd/ScaleFacet.java:60-70 | only the characters after the first '.' are examined |
| ScaleFacets.NoDotNoFraction | xsdlib/src/com/sun/msv/datatype/xsd/ScaleFacet.java:60-70 | a literal without '.' has no fraction part |
| ScaleFacets.CountScaleAsWritten | xsdlib/src/com/sun/msv/datatype/xsd/ScaleFacet.java:56-78 | the loop as written counts the characters '1' to '9' after the first '.', and at most the literal's length |
| ScaleFacets.AsWrittenSkipsInnerZero | xsdlib/src/com/sun/msv/datatype/xsd/ScaleFacet.java:73-74 | for "1.01" the loop as written counts 1 where the literal has 2 fraction digits |
| ScaleFacets.TrimmedCount | xsdlib/src/com/sun/msv/datatype/xsd/ScaleFacet.java:56-78 | the fraction digits without trailing zeros are the digits minus the trailing zeros |
| ScaleFacets.CountScale | xsdlib/src/com/sun/msv/datatype/xsd/ScaleFacet.java:56-78 | counts the fraction digits up to the last non-zero one, and at most the literal's length |
| ScaleFacets.NewScaleFacet | xsdlib/src/com/sun/msv/datatype/xsd/ScaleFacet.java:32-36 | construction fails iff the base facet's scale is below the new scale, naming the base type; otherwise the facet holds the scale, and it is no looser than the base |
| ScaleFacets.CheckLexicalConstraint | xsdlib/src/com/sun/msv/datatype/xsd/ScaleFacet.java:41-44 | using the corrected fraction-digit count (see Findings), a literal is accepted iff that count is at most the scale |
| ScaleFacets.DiagnoseByFacet | xsdlib/src/com/sun/msv/datatype/xsd/ScaleFacet.java:46-54 | using the corrected fraction-digit count (see Findings), no diagnosis iff the constraint holds; otherwise the diagnosis carries the literal, that count and the scale |
| IgnoreStates.Step | msv/src/com/sun/msv/reader/IgnoreState.java:15-32 | a start tag adds one to the depth, an end tag subtracts one and pops the state iff the depth reaches zero, and text changes nothing |
| IgnoreStates.ReplayInside | msv/src/com/sun/msv/reader/IgnoreState.java:15-22 | inside the ignored element the depth is one more than the number of open tags, and no pop happens |
| IgnoreStates.SkipsSubtree | msv/src/com/sun/msv/reader/IgnoreState.java:13-22 | a balanced subtree leaves the depth at 1 without a pop, and the end tag after it pops exactly once |
| IgnoreStates.IgnoreState.constructor | msv/src/com/sun/msv/reader/IgnoreState.java:13 | the depth starts at 1 and no pop has happened |
| IgnoreStates.IgnoreState.StartElement | msv/src/com/sun/msv/reader/IgnoreState.java:15-18 | takes one start-tag step |
| IgnoreStates.IgnoreState.EndElement | msv/src/com/sun/msv/reader/IgnoreState.java:19-23 | takes one end-tag step, popping when the depth reaches zero |
| IgnoreStates.IgnoreState.EndDocument | msv/src/com/sun/msv/reader/IgnoreState.java:24-28 | pops unconditionally and leaves the depth alone |
| IgnoreStates.IgnoreState.Characters | msv/src/com/sun/msv/reader/IgnoreState.java:29-32 | changes nothing |
| ExpressionGraphs.Graph.Create | generator/src/com/sun/msv/generator/NoneTypeRemover.java:45 | adds exactly one fresh node and keeps the graph well formed |
| ExpressionGraphs.Graph.SetContentModel | generator/src/com/sun/msv/generator/NoneTypeRemover.java:36 | overwrites only the element's content model and keeps the graph well formed |
| ExpressionGraphs.Graph.SetChild | generator/src/com/sun/msv/generator/NoneTypeRemover.java:53 | overwrites only the reference's or wrapper's child, keeping its name or payload, and keeps the graph well formed |
| NoneTypeRemovers.NoneTypeRemover.constructor | generator/src/com/sun/msv/generator/NoneTypeRemover.java:27-30 | no element has been visited |
| NoneTypeRemovers.NoneTypeRemover.Visit | generator/src/com/sun/msv/generator/NoneTypeRemover.java:32-58 | the rewrite of any node is a node that is neither a wrapper nor a none-typed data node; nodes keep their shape and elements stay the same set |
| NoneTypeRemovers.NoneTypeRemover.OnElement | generator/src/com/sun/msv/generator/NoneTypeRemover.java:32-38 | returns the element itself and marks it visited; on the first visit its content model is overwritten in place by the clean result of visiting the old one, keeping its name class; a revisited element changes nothing |
| NoneTypeRemovers.NoneTypeRemover.OnAttribute | generator/src/com/sun/msv/generator/NoneTypeRemover.java:40-46 | the visited content is clean and smaller; the result is epsilon iff that content is nullSet, and otherwise a fresh attribute node with the old name class over exactly that content |
| NoneTypeRemovers.NoneTypeRemover.OnData | generator/src/com/sun/msv/generator/NoneTypeRemover.java:48-51 | a none-typed data node becomes nullSet; any other data node is returned as is |
| NoneTypeRemovers.NoneTypeRemover.OnRef | generator/src/com/sun/msv/generator/NoneTypeRemover.java:52-55 | the reference keeps its identity and name, and its target is overwritten in place by the clean result of visiting the old target |
| NoneTypeRemovers.NoneTypeRemover.OnOther | generator/src/com/sun/msv/generator/NoneTypeRemover.java:56-58 | the wrapper is dropped in favour of a rewritten node of smaller rank |
| NoneTypeRemovers.NoneTypeRemover.OnBinary | generator/src/com/sun/msv/generator/NoneTypeRemover.java:25 | a binary combinator is rebuilt as a fresh node of the same kind over exactly the two clean, smaller results of visiting its children |
| NoneTypeRemovers.NoneTypeRemover.OnOneOrMore | generator/src/com/sun/msv/generator/NoneTypeRemover.java:25 | a repetition is rebuilt as a fresh repetition over exactly the clean, smaller result of visiting its body |
| PrimitiveTypeAnnotators.ItemType | tahiti/src/com/sun/tahiti/reader/annotator/PrimitiveTypeAnnotator.java:85-93 | a value type contributes its base type, any other type itself; the item type is absent iff that type is not databindable |
| PrimitiveTypeAnnotators.MemoEvolves | tahiti/src/com/sun/tahiti/reader/annotator/PrimitiveTypeAnnotator.java:39-43 | every memoised item still wraps its typed string after any rewrite step |
| PrimitiveTypeAnnotators.PrimitiveTypeAnnotator.constructor | tahiti/src/com/sun/tahiti/reader/annotator/PrimitiveTypeAnnotator.java:30-43 | nothing has been visited and nothing memoised |
| PrimitiveTypeAnnotators.PrimitiveTypeAnnotator.Visit | tahiti/src/com/sun/tahiti/reader/annotator/PrimitiveTypeAnnotator.java:45-97 | the rewrite of any node terminates on a cyclic graph; nodes keep their shape, the memo only grows and stays valid, and every node redirected to a larger rank has been visited |
| PrimitiveTypeAnnotators.PrimitiveTypeAnnotator.OnRef | tahiti/src/com/sun/tahiti/reader/annotator/PrimitiveTypeAnnotator.java:45-49 | the reference keeps its identity and is processed at most once; on the first visit its target is overwritten in place by the result of visiting the old target, keeping its name; a revisit changes nothing |
| PrimitiveTypeAnnotators.PrimitiveTypeAnnotator.OnOther | tahiti/src/com/sun/tahiti/reader/annotator/PrimitiveTypeAnnotator.java:51-55 | the wrapper keeps its identity and is processed at most once; on the first visit its child is overwritten in place by the result of visiting the old child, keeping its payload; a revisit changes nothing |
| PrimitiveTypeAnnotators.PrimitiveTypeAnnotator.OnElement | tahiti/src/com/sun/tahiti/reader/annotator/PrimitiveTypeAnnotator.java:57-61 | the element keeps its identity and is processed at most once; on the first visit its content model is overwritten in place by the result of visiting the old one, keeping its name class; a revisit changes nothing |
| PrimitiveTypeAnnotators.PrimitiveTypeAnnotator.OnAttribute | tahiti/src/com/sun/tahiti/reader/annotator/PrimitiveTypeAnnotator.java:63-69 | an attribute this pass produced is returned with nothing changed; any other is rebuilt as a fresh attribute node with the old name class over exactly the result of visiting its content, and marked visited |
| PrimitiveTypeAnnotators.PrimitiveTypeAnnotator.OnAnyString | tahiti/src/com/sun/tahiti/reader/annotator/PrimitiveTypeAnnotator.java:71-76 | every call returns a new string item wrapping a new string data node |
| PrimitiveTypeAnnotators.PrimitiveTypeAnnotator.OnTypedString | tahiti/src/com/sun/tahiti/reader/annotator/PrimitiveTypeAnnotator.java:78-97 | a typed string memoised before yields the same item and changes nothing; otherwise a fresh item wrapping it, with its item type, is memoised and returned |
| PrimitiveTypeAnnotators.PrimitiveTypeAnnotator.OnBinary | tahiti/src/com/sun/tahiti/reader/annotator/PrimitiveTypeAnnotator.java:28 | a binary combinator is rebuilt as a fresh node of the same kind over exactly the two results of visiting its children |
| PrimitiveTypeAnnotators.PrimitiveTypeAnnotator.OnOneOrMore | tahiti/src/com/sun/tahiti/reader/annotator/PrimitiveTypeAnnotator.java:28 | a repetition is rebuilt as a fresh repetition over exactly the result of visiting its body |
| AttributeStates.Attr | msv/src/com/sun/msv/reader/xmlschema/AttributeState.java:36 | an attribute of the start tag is present iff the tag has it, with its value |
| AttributeStates.OrEpsilon | msv/src/com/sun/msv/reader/xmlschema/AttributeState.java:40-63 | a resolved expression is used as is; an unresolved one becomes epsilon |
| AttributeStates.InitialExpression | msv/src/com/sun/msv/reader/xmlschema/AttributeState.java:33-64 | no expression iff the tag has neither ref nor type; ref gives the resolved declaration or epsilon; type alone gives the resolved type or epsilon |
| AttributeStates.RefHidesType | msv/src/com/sun/msv/reader/xmlschema/AttributeState.java:36-49 | with ref present, the type attribute does not affect the initial expression |
| AttributeStates.CastExpression | msv/src/com/sun/msv/reader/xmlschema/AttributeState.java:66-73 | the new child replaces what was there, and an error is reported iff there was already an expression |
| AttributeStates.LastChildWins | msv/src/com/sun/msv/reader/xmlschema/AttributeState.java:66-73 | after several children the last one wins, and every child after the first expression reports one "more than one child" error |
| AttributeStates.AttributeContent | msv/src/com/sun/msv/reader/xmlschema/AttributeState.java:93-101 | fixed gives the typed string of its value; otherwise a missing content type gives anyString and a present one is used |
| AttributeStates.LocalUse | msv/src/com/sun/msv/reader/xmlschema/AttributeState.java:118-128 | an error iff use is present and not prohibited, optional or required; prohibited gives epsilon, optional or absent the optional attribute, anything else the attribute |
| AttributeStates.SchemaReader.constructor | msv/src/com/sun/msv/reader/xmlschema/AttributeState.java:75-88 | no attribute is declared and no error is recorded |
| AttributeStates.SchemaReader.AttributeOf | msv/src/com/sun/msv/reader/xmlschema/AttributeState.java:83-105 | the attribute has a simple name class with the declared name, in the target namespace when global and the form's namespace when local, over the lowered content |
| AttributeStates.SchemaReader.AnnealExpression | msv/src/com/sun/msv/reader/xmlschema/AttributeState.java:75-132 | a global declaration is registered under its name and returned unwrapped; a local one registers nothing and is wrapped by use, recording any error |

## Left out

- Debug printing is not modelled. It is console output only.
- Message text is not modelled. `localizeMessage`, `ResourceBundle` and `MessageFormat` become an abstract message function from a tag and arguments.
- Datatype checking is not modelled. `Datatype.checkValid` and the datatype exceptions are an abstract predicate with an optional message.
- The residual calculator, `CombinedChildContentExpCreator`, `AttributeFeeder`, `AttributeRemover`, the attribute picker and `ExpressionPool` are not modelled. Their code is not part of this model, so they stay abstract functions; their algebra is not assumed.
- Pool hash-consing is not modelled: in the graph model every created node is fresh. The rewriters therefore rebuild combinators without whatever simplification `pool.createChoice`, `createSequence` and the others perform, which is not part of this model; `NoneTypeRemover.OnAttribute`'s epsilon rule fires only when the visited content is the nullSet node itself, not when it is a combination that the pool would reduce to nullSet.
- `MixedExp`, `ListExp` and `ConcurExp` are not node kinds of the graph model, so the rewriters' visits of them, which `ExpressionCloner` supplies and which are not part of this model, are not modelled either.
- `ExpressionCloner`'s default methods are not part of this model. They are modelled as visiting the children left to right and rebuilding the combinator over them.
- The SAX `Locator` is not modelled. `NamespaceSupport` is modelled as a stack of prefix maps, with the `xml` prefix bound in the bottom one.
- The `verifierTag` cache is modelled sequentially. The benign data race argued in the comment at ExpressionAcceptor.java:180-184 is about concurrency and is not modelled.
- `panicLevel` is not modelled. It is declared but never changed in the modelled code.
- `LocalNameClass.visit` is not modelled: it fails unconditionally by throwing an `Error`.
- Java `null` string arguments are not modelled; message arguments that are `null` become "".
- Reading another file (`IncludePatternState.switchSource`), the `GrammarReaderController` callbacks, the `ModuleState` field assignment, `SElementExp` and the RELAX batch test are not modelled. They are I/O or data holders.
- `getDiagnosisFromTypedString` is not modelled beyond the abstract datatype message it returns.
- `Verifier`'s `notationDecl`, `skippedEntity`, `processingInstruction` and `endPrefixMapping` have empty bodies and are not modelled.
- `Verifier`'s acceptor calls during stepping that report ID and IDREF tokens are not modelled; `OnId` and `OnIdref` are modelled as the callbacks themselves.
- `AttributeState` is modelled only as decision logic. Reading the child state (`createChildState`), `setDeclaredLocationOf`, and resolving namespaces and qualified names (`resolveNamespaceOfAttributeDecl`, the QName resolvers) are parameters or not modelled.
- `AttributeStates`: `pool.createOptional` is modelled as the choice of the attribute and epsilon, and the `TypedString` name pair is not modelled.
- `AttributeStates.CastAll` models the fold over child expressions for an arbitrary starting expression.
- NoneTypeRemovers.NoneTypeRemover.Visit: states that the returned node is clean, not that the whole reachable graph is clean afterwards.
- NoneTypeRemovers.NoneTypeRemover.Visit: requires that every cycle of the graph passes through an element. `onRef` has no visited check, so a cycle made only of references would not terminate in the source either.
- NoneTypeRemovers.NoneTypeRemover.OnOther: does not state that the result is the rewrite of the wrapped child, only that it is clean and of smaller rank.
- PrimitiveTypeAnnotators.PrimitiveTypeAnnotator.Visit: states the result node exists and the invariants hold, not a structural description of the annotated graph.
- NoneTypeRemovers.NoneTypeRemover.OnAttribute, NoneTypeRemovers.NoneTypeRemover.OnBinary, NoneTypeRemovers.NoneTypeRemover.OnOneOrMore, NoneTypeRemovers.NoneTypeRemover.OnElement and NoneTypeRemovers.NoneTypeRemover.OnRef: name the rebuilt or overwritten node's children as the results of visiting the old children (ghost out-parameters), and state of them only that they are clean and of smaller rank, not which rewritten expression they are.
- PrimitiveTypeAnnotators.PrimitiveTypeAnnotator.OnAttribute, PrimitiveTypeAnnotators.PrimitiveTypeAnnotator.OnBinary, PrimitiveTypeAnnotators.PrimitiveTypeAnnotator.OnOneOrMore, PrimitiveTypeAnnotators.PrimitiveTypeAnnotator.OnRef, PrimitiveTypeAnnotators.PrimitiveTypeAnnotator.OnOther and PrimitiveTypeAnnotators.PrimitiveTypeAnnotator.OnElement: name the rebuilt or overwritten node's children as the results of visiting the old children (ghost out-parameters), and state of them only that they are nodes of the graph, not which annotated expression they are.
- Expressions.ChoiceChildren: `ChoiceExp.getChildren` is not part of this model; it is modelled as flattening a nest of choices into its non-choice branches, left to right.
- `CombinedChildContentExpCreator.continueGet` is abstract (`continueCombine`), taking the result of the preceding `get`; how it appends to that result is not modelled.
- ExpressionAcceptors.ExpressionAcceptor.CreateChildAcceptor: the two-argument `cccc.get(expression, sti)` is not part of this model; it is assumed to be the four-argument `get` with attributes fed and tag names checked (`combine(e, Some(tag), true, true)`).
- Verifiers.Verifier.constructor: sets the current acceptor to the initial one, where the source leaves it null until `startDocument`; an event before `startDocument` (a null dereference in the source) is not modelled, since SAX always delivers `startDocument` first.
- AcceptorSpec.LiteralCandidates and ExpressionAcceptors.ExpressionAcceptor.DiagnoseUnexpectedLiteral: the failed constraints are a set of datatypes, where the source keeps a set of typed-string expressions; two failed expressions with the same datatype count as one, so the single-candidate branch can be taken where the source would list candidates.
- ScaleFacets.CheckLexicalConstraint and ScaleFacets.DiagnoseByFacet: use the corrected fraction-digit count `CountScale`, not the loop as written (see Findings).

## Findings

| source | as written | input that shows it | evidently intended | confidence | as-written member | corrected member |
|---|---|---|---|---|---|---|
| xsdlib/src/com/sun/msv/datatype/xsd/ScaleFacet.java:73 | the test `'0'<ch` counts only the digits '1' to '9' after the point, so zeros between other digits are skipped | "1.01" counts 1, yet has 2 fraction digits | count every fraction digit up to the last non-zero one | not executed | ScaleFacets.CountScaleAsWritten, ScaleFacets.AsWrittenSkipsInnerZero | ScaleFacets.CountScale, ScaleFacets.CheckLexicalConstraint, ScaleFacets.DiagnoseByFacet |
| msv/src/com/sun/msv/verifier/Verifier.java:259-262 | `startPrefixMapping` declares the prefix before `startElement` (line 147) pushes the element's context, so the declaration lands in the parent's context | a prefix mapped on an element still resolves after that element's end tag | the declaration belongs to the element's own context, as `AbstractVerifier` does it | not executed | Verifiers.Verifier.StartPrefixMapping, NamespaceScopes.DeclaredBeforePushOutlivesElement | AbstractVerifiers.AbstractVerifier.StartPrefixMapping, NamespaceScopes.DeclaredAfterPushEndsWithElement |
