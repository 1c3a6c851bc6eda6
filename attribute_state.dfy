/**
 * How an XML Schema <attribute> declaration becomes an expression (section 3.2 of
 * XML Schema Part 1: Structures): the reference or type it names, the one child that
 * may give its type, and the final attribute expression, optional or prohibited as
 * its `use` says when it is local, registered by name when it is global.
 */
module AttributeStates {
  import opened Wrappers
  import opened NameClasses
  import opened Datatypes
  import opened Expressions

  /** The attributes of the <attribute> start tag, by local name. */
  type Tag = map<string, string>

  /** startTag.getAttribute: the value, or nothing when the attribute is absent. */
  function Attr(tag: Tag, name: string): (r: Option<string>)
    ensures r.Some? <==> name in tag
    ensures r.Some? ==> r.value == tag[name]
  {
    if name in tag then Some(tag[name]) else None
  }

  datatype ReaderError =
    | MoreThanOneChildExpression
    | BadAttributeValue(attributeName: string, value: string)

  /** A reference that could not be resolved stands for epsilon, so that reading can go on. */
  function OrEpsilon(resolved: Option<Expression>): (r: Expression)
    ensures resolved.Some? ==> r == resolved.value
    ensures resolved.None? ==> r == Epsilon
  {
    if resolved.Some? then resolved.value else Epsilon
  }

  /**
   * initialExpression: @ref names a global attribute declaration and wins over @type,
   * which names a simple type; with neither there is no type yet (null).
   * The resolvers stand for the reader's QName lookup in the declarations and types tables.
   */
  function InitialExpression(tag: Tag, attributeDecls: string -> Option<Expression>,
                             simpleTypes: string -> Option<Expression>): (r: Option<Expression>)
    ensures r.None? <==> "ref" !in tag && "type" !in tag
    ensures "ref" in tag ==> r == Some(OrEpsilon(attributeDecls(tag["ref"])))
    ensures "ref" !in tag && "type" in tag ==> r == Some(OrEpsilon(simpleTypes(tag["type"])))
  {
    if "ref" in tag then Some(OrEpsilon(attributeDecls(tag["ref"])))
    else if "type" !in tag then None
    else Some(OrEpsilon(simpleTypes(tag["type"])))
  }

  /** @ref makes @type irrelevant. */
  lemma RefHidesType(tag: Tag, typeName: string, attributeDecls: string -> Option<Expression>,
                     simpleTypes: string -> Option<Expression>)
    requires "ref" in tag
    ensures InitialExpression(tag["type" := typeName], attributeDecls, simpleTypes)
         == InitialExpression(tag - {"type"}, attributeDecls, simpleTypes)
  {
  }

  /** castExpression: the new child replaces what was there, and a second child is an error. */
  function CastExpression(halfCasted: Option<Expression>, child: Expression): (r: (Expression, Option<ReaderError>))
    ensures r.0 == child
    ensures r.1.Some? <==> halfCasted.Some?
    ensures r.1.Some? ==> r.1.value == MoreThanOneChildExpression
  {
    (child, if halfCasted.Some? then Some(MoreThanOneChildExpression) else None)
  }

  /** The expression and the errors after casting each child in turn onto `start`. */
  function CastAll(start: Option<Expression>, children: seq<Expression>): (Option<Expression>, seq<ReaderError>)
  {
    if children == [] then (start, [])
    else
      var (half, errors) := CastAll(start, children[..|children| - 1]);
      var (e, error) := CastExpression(half, children[|children| - 1]);
      (Some(e), errors + (if error.Some? then [error.value] else []))
  }

  /**
   * The last child wins, and every child but the first to arrive on nothing reports
   * one error.
   */
  lemma {:induction false} LastChildWins(start: Option<Expression>, children: seq<Expression>)
    ensures children != [] ==> CastAll(start, children).0 == Some(children[|children| - 1])
    ensures children == [] ==> CastAll(start, children).0 == start
    ensures |CastAll(start, children).1| == if start.None? && children != [] then |children| - 1 else |children|
    ensures forall i :: 0 <= i < |CastAll(start, children).1| ==> CastAll(start, children).1[i] == MoreThanOneChildExpression
  {
    if children != [] {
      var front := children[..|children| - 1];
      LastChildWins(start, front);
    }
  }

  /** The content type: anyString (ur-type) when none was given, overridden by the @fixed value. */
  function AttributeContent(tag: Tag, contentType: Option<Expression>): (r: Expression)
    ensures "fixed" in tag ==> r == Data(TypedString(tag["fixed"], false))
    ensures "fixed" !in tag && contentType.None? ==> r == AnyString
    ensures "fixed" !in tag && contentType.Some? ==> r == contentType.value
  {
    if "fixed" in tag then Data(TypedString(tag["fixed"], false))
    else if contentType.Some? then contentType.value
    else AnyString
  }

  /** The name an attribute is declared under; a missing @name is the empty name. */
  function DeclaredName(tag: Tag): string
  {
    if "name" in tag then tag["name"] else ""
  }

  /**
   * What @use makes of a local declaration's attribute expression: prohibited drops it,
   * optional (the default) allows it to be missing, required keeps it; any other value is
   * an error and counts as required.
   */
  function LocalUse(attribute: Expression, use: Option<string>): (r: (Expression, Option<ReaderError>))
    ensures r.1.Some? <==> use.Some? && use.value !in {"prohibited", "optional", "required"}
    ensures r.1.Some? ==> r.1.value == BadAttributeValue("use", use.value)
    ensures r.0 == Epsilon || r.0 == attribute || r.0 == Choice(attribute, Epsilon)
    ensures attribute.Attribute? ==> (r.0 == Epsilon <==> use == Some("prohibited"))
    ensures attribute.Attribute? ==>
      (EpsilonReducible(r.0) <==> use.None? || use.value in {"prohibited", "optional"})
  {
    if use == Some("prohibited") then (Epsilon, None)
    else if use.None? || use == Some("optional") then (Choice(attribute, Epsilon), None)
    else if use == Some("required") then (attribute, None)
    else (attribute, Some(BadAttributeValue("use", use.value)))
  }

  /** The parts of the XML Schema reader one <attribute> touches. */
  class SchemaReader {
    /** currentSchema.targetNamespace */
    const targetNamespace: string
    /** resolveNamespaceOfAttributeDecl: the namespace of a local attribute from @form and attributeFormDefault */
    const localNamespace: Option<string> -> string
    /** the global attribute declarations, by name, with the expression each stands for */
    var attributeDecls: map<string, Expression>
    var errors: seq<ReaderError>

    constructor(targetNamespace: string, localNamespace: Option<string> -> string)
      ensures this.targetNamespace == targetNamespace && this.localNamespace == localNamespace
      ensures attributeDecls == map[] && errors == []
    {
      this.targetNamespace := targetNamespace;
      this.localNamespace := localNamespace;
      attributeDecls := map[];
      errors := [];
    }

    /** The attribute expression of a declaration: its name in the right namespace over its content type. */
    function AttributeOf(isGlobal: bool, tag: Tag, contentType: Option<Expression>): (r: Expression)
      reads this
      ensures r.Attribute? && r.nameClass.SimpleName? && r.nameClass.localName == DeclaredName(tag)
      ensures r.nameClass.namespaceUri == if isGlobal then targetNamespace else localNamespace(Attr(tag, "form"))
      ensures r.exp == AttributeContent(tag, contentType)
    {
      var ns := if isGlobal then targetNamespace else localNamespace(Attr(tag, "form"));
      Attribute(SimpleName(ns, DeclaredName(tag)), AttributeContent(tag, contentType))
    }

    /**
     * annealExpression: a global declaration is registered under its name and is not
     * made optional; a local one is shaped by its @use.
     */
    method AnnealExpression(isGlobal: bool, tag: Tag, contentType: Option<Expression>) returns (exp: Expression)
      modifies this`attributeDecls, this`errors
      ensures isGlobal ==> exp == AttributeOf(isGlobal, tag, contentType)
      ensures isGlobal ==> attributeDecls == old(attributeDecls)[DeclaredName(tag) := exp] && errors == old(errors)
      ensures !isGlobal ==> attributeDecls == old(attributeDecls)
      ensures !isGlobal ==>
        var (e, error) := LocalUse(AttributeOf(isGlobal, tag, contentType), Attr(tag, "use"));
        exp == e && errors == old(errors) + (if error.Some? then [error.value] else [])
    {
      var name := DeclaredName(tag);
      var content := AttributeContent(tag, contentType);
      var ns := if isGlobal then targetNamespace else localNamespace(Attr(tag, "form"));
      exp := Attribute(SimpleName(ns, name), content);
      if isGlobal {
        attributeDecls := attributeDecls[name := exp];
      } else {
        var use := Attr(tag, "use");
        if use == Some("prohibited") {
          return Epsilon;
        }
        if use.None? || use == Some("optional") {
          exp := Choice(exp, Epsilon);
        } else if use != Some("required") {
          errors := errors + [BadAttributeValue("use", use.value)];
        }
      }
    }
  }
}
