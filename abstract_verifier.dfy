/**
 * AbstractVerifier: the services every verifier shares. It collects IDs and IDREFs per
 * (namespace URI, local name) of the key, records declared notations and unparsed
 * entities, and opens exactly one namespace context per element, whether the element's
 * prefix mappings arrive before it or not.
 */
module AbstractVerifiers {
  import opened Wrappers
  import opened NamespaceScopes

  /** StringPair: the (namespace URI, local name) an ID or IDREF is declared under. */
  datatype KeyName = KeyName(uri: string, local: string)

  type TokenTable = map<KeyName, set<string>>

  /** The tokens recorded under a name; a missing entry is the empty set. */
  function TokensOf(m: TokenTable, name: KeyName): set<string>
  {
    if name in m then m[name] else {}
  }

  /** The table after recording `token` under `name`, creating the entry on first use. */
  function AddToken(m: TokenTable, name: KeyName, token: string): (r: TokenTable)
    ensures name in r && TokensOf(r, name) == TokensOf(m, name) + {token}
    ensures forall other :: other != name ==> TokensOf(r, other) == TokensOf(m, other)
    ensures r.Keys == m.Keys + {name}
  {
    m[name := TokensOf(m, name) + {token}]
  }

  /** Recording a token twice is the same as recording it once. */
  lemma AddTokenIdempotent(m: TokenTable, name: KeyName, token: string)
    ensures AddToken(AddToken(m, name, token), name, token) == AddToken(m, name, token)
  {
    var once := AddToken(m, name, token);
    assert TokensOf(once, name) + {token} == TokensOf(once, name);
  }

  class AbstractVerifier {
    var ids: TokenTable
    var idrefs: TokenTable
    /** whether a prefix mapping already opened the context of the coming element */
    var contextPushed: bool
    var scopes: Scopes
    var notations: set<string>
    var unparsedEntities: set<string>
    /** the number of open elements */
    ghost var depth: nat

    /** One context per open element above the base one, plus the one opened early by a prefix mapping. */
    ghost predicate Valid()
      reads this
    {
      |scopes| == depth + 1 + (if contextPushed then 1 else 0)
    }

    constructor()
      ensures ids == map[] && idrefs == map[] && !contextPushed && scopes == Initial()
      ensures notations == {} && unparsedEntities == {} && depth == 0
      ensures Valid()
    {
      ids := map[];
      idrefs := map[];
      contextPushed := false;
      scopes := Initial();
      notations := {};
      unparsedEntities := {};
      depth := 0;
    }

    /** startPrefixMapping: opens the coming element's context on the first mapping only. */
    method StartPrefixMapping(prefix: string, uri: string)
      requires Valid()
      modifies this`scopes, this`contextPushed
      ensures contextPushed && Valid()
      ensures scopes == Declare(if old(contextPushed) then old(scopes) else Push(old(scopes)), prefix, uri)
    {
      if !contextPushed {
        scopes := Push(scopes);
        contextPushed := true;
      }
      scopes := Declare(scopes, prefix, uri);
    }

    /**
     * startElement: opens the element's context unless a prefix mapping already did, so
     * the element has exactly one context of its own.
     */
    method StartElement()
      requires Valid()
      modifies this`scopes, this`contextPushed, this`depth
      ensures !contextPushed && depth == old(depth) + 1 && Valid()
      ensures scopes == (if old(contextPushed) then old(scopes) else Push(old(scopes)))
      ensures |scopes| == old(depth) + 2
    {
      if !contextPushed {
        scopes := Push(scopes);
      }
      contextPushed := false;
      depth := depth + 1;
    }

    /** endElement: closes the element's context. */
    method EndElement()
      requires Valid() && depth >= 1 && !contextPushed
      modifies this`scopes, this`depth
      ensures scopes == Pop(old(scopes)) && depth == old(depth) - 1 && Valid()
    {
      scopes := Pop(scopes);
      depth := depth - 1;
    }

    /** init: forget every ID and IDREF. */
    method Init()
      modifies this`ids, this`idrefs
      ensures ids == map[] && idrefs == map[]
    {
      ids := map[];
      idrefs := map[];
    }

    method NotationDecl(name: string)
      modifies this`notations
      ensures notations == old(notations) + {name}
    {
      notations := notations + {name};
    }

    method UnparsedEntityDecl(name: string)
      modifies this`unparsedEntities
      ensures unparsedEntities == old(unparsedEntities) + {name}
    {
      unparsedEntities := unparsedEntities + {name};
    }

    function IsNotation(name: string): (r: bool)
      reads this
      ensures r <==> name in notations
    {
      name in notations
    }

    function IsUnparsedEntity(name: string): (r: bool)
      reads this
      ensures r <==> name in unparsedEntities
    {
      name in unparsedEntities
    }

    /** resolveNamespacePrefix: the binding of the innermost context that declares the prefix. */
    function ResolveNamespacePrefix(prefix: string): (r: Option<string>)
      reads this
      ensures r.None? <==> forall k :: 0 <= k < |scopes| ==> prefix !in scopes[k]
      ensures r.Some? ==>
        exists k :: 0 <= k < |scopes| && prefix in scopes[k] && scopes[k][prefix] == r.value
          && forall j :: k < j < |scopes| ==> prefix !in scopes[j]
    {
      ResolveInnermost(scopes, prefix);
      Resolve(scopes, prefix)
    }

    /** onIDREF: the token is recorded under its name. */
    method OnIdref(uri: string, local: string, token: string)
      modifies this`idrefs
      ensures idrefs == AddToken(old(idrefs), KeyName(uri, local), token)
    {
      var name := KeyName(uri, local);
      var tokens := if name in idrefs then idrefs[name] else {};
      idrefs := idrefs[name := tokens + {token}];
    }

    /** onID: false iff the token is already recorded under the same name; it is recorded afterwards. */
    method OnId(uri: string, local: string, token: string) returns (unique: bool)
      modifies this`ids
      ensures unique <==> token !in TokensOf(old(ids), KeyName(uri, local))
      ensures ids == AddToken(old(ids), KeyName(uri, local), token)
    {
      var name := KeyName(uri, local);
      var tokens := if name in ids then ids[name] else {};
      ids := ids[name := tokens];
      if token in tokens {
        assert tokens + {token} == tokens;
        return false;
      }
      ids := ids[name := tokens + {token}];
      return true;
    }
  }
}
