/**
 * Datatype handles as the grammar refers to them. The datatype library that decides
 * whether a literal is valid is not part of this model; only the distinctions the
 * validator and the grammar passes make between kinds of datatypes are kept.
 */
module Datatypes {

  datatype Datatype =
    /** RELAX's "none" type, which accepts no literal */
    | NoneType
    /** TREX's <string> pattern: exactly one literal value */
    | TypedString(value: string, preserveWhiteSpace: bool)
    /** RELAX NG's <value>: one value of a base datatype */
    | ValueType(value: string, baseType: Datatype)
    /** any other datatype of the library, by name */
    | Builtin(name: string)

  /** the XML Schema "string" datatype */
  const StringType: Datatype := Builtin("string")
}
