/**
 * The namespace scope SAX's NamespaceSupport keeps: a stack of contexts, each binding
 * prefixes to namespace URIs. A prefix resolves to its binding in the innermost context
 * that declares it.
 */
module NamespaceScopes {
  import opened Wrappers

  type Scopes = seq<map<string, string>>

  const XmlPrefix: string := "xml"
  const XmlNamespace: string := "http://www.w3.org/XML/1998/namespace"

  /** A fresh NamespaceSupport: one base context, in which only "xml" is bound. */
  function Initial(): (r: Scopes)
    ensures |r| == 1
    ensures Resolve(r, XmlPrefix) == Some(XmlNamespace)
  {
    [map[XmlPrefix := XmlNamespace]]
  }

  /** pushContext: a new, empty innermost context. */
  function Push(s: Scopes): (r: Scopes)
    ensures |r| == |s| + 1
  {
    s + [map[]]
  }

  /** popContext: the innermost context and everything declared in it are dropped. */
  function Pop(s: Scopes): (r: Scopes)
    requires |s| >= 2
    ensures |r| == |s| - 1
  {
    s[..|s| - 1]
  }

  /** declarePrefix: the binding goes into the innermost context. */
  function Declare(s: Scopes, prefix: string, uri: string): (r: Scopes)
    requires |s| >= 1
    ensures |r| == |s|
  {
    s[..|s| - 1] + [s[|s| - 1][prefix := uri]]
  }

  /** getURI: the binding of the innermost context that declares the prefix. */
  function Resolve(s: Scopes, prefix: string): Option<string>
  {
    if s == [] then None
    else if prefix in s[|s| - 1] then Some(s[|s| - 1][prefix])
    else Resolve(s[..|s| - 1], prefix)
  }

  /** Pushing and then popping a context restores the scope exactly. */
  lemma PopPush(s: Scopes)
    requires |s| >= 1
    ensures Pop(Push(s)) == s
  {
    assert Push(s)[..|s|] == s;
  }

  /** An empty context changes no resolution. */
  lemma ResolvePush(s: Scopes, prefix: string)
    ensures Resolve(Push(s), prefix) == Resolve(s, prefix)
  {
    assert Push(s)[..|s|] == s;
  }

  /** A declared prefix resolves to its URI; other prefixes resolve as before. */
  lemma ResolveDeclare(s: Scopes, prefix: string, uri: string, other: string)
    requires |s| >= 1
    ensures Resolve(Declare(s, prefix, uri), prefix) == Some(uri)
    ensures other != prefix ==> Resolve(Declare(s, prefix, uri), other) == Resolve(s, other)
  {
    assert Declare(s, prefix, uri)[..|s| - 1] == s[..|s| - 1];
  }

  /**
   * A prefix declared before the context for its element is pushed survives the end of
   * that element: it is still bound in the parent's scope.
   */
  lemma DeclaredBeforePushOutlivesElement(s: Scopes, prefix: string, uri: string)
    requires |s| >= 1
    ensures Resolve(Pop(Push(Declare(s, prefix, uri))), prefix) == Some(uri)
  {
    PopPush(Declare(s, prefix, uri));
    ResolveDeclare(s, prefix, uri, prefix);
  }

  /** A prefix declared after the push is scoped to the element: the pop restores the parent scope. */
  lemma DeclaredAfterPushEndsWithElement(s: Scopes, prefix: string, uri: string)
    requires |s| >= 1
    ensures Pop(Declare(Push(s), prefix, uri)) == s
    ensures Resolve(Declare(Push(s), prefix, uri), prefix) == Some(uri)
  {
    ResolveDeclare(Push(s), prefix, uri, prefix);
  }

  /**
   * A prefix resolves to nothing iff no context binds it, and otherwise to its binding in
   * the innermost context that declares it.
   */
  lemma {:induction false} ResolveInnermost(s: Scopes, prefix: string)
    ensures Resolve(s, prefix).None? <==> forall k :: 0 <= k < |s| ==> prefix !in s[k]
    ensures Resolve(s, prefix).Some? ==>
      exists k :: 0 <= k < |s| && prefix in s[k] && s[k][prefix] == Resolve(s, prefix).value
        && forall j :: k < j < |s| ==> prefix !in s[j]
  {
    if s != [] && prefix !in s[|s| - 1] {
      var front := s[..|s| - 1];
      ResolveInnermost(front, prefix);
      forall k | 0 <= k < |front| ensures front[k] == s[k] { }
      if Resolve(s, prefix).Some? {
        var k :| 0 <= k < |front| && prefix in front[k] && front[k][prefix] == Resolve(s, prefix).value
          && forall j :: k < j < |front| ==> prefix !in front[j];
        assert forall j :: k < j < |s| ==> prefix !in s[j] by {
          forall j | k < j < |s| ensures prefix !in s[j] {
            if j < |front| { assert front[j] == s[j]; }
          }
        }
      }
    }
  }
}
