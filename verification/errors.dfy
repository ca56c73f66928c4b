/** What the generator can fail with. The source raises a `ValueError` for a
    non-local `$ref`; every other case is the exception Python itself raises
    when a node of the document has an unexpected shape. */
module GenErrors {

  datatype GenError =
    /** `ValueError`: a `$ref` that does not start with `#/`. */
    | UnsupportedRef(ref: string)
    /** `AttributeError`: a `$ref` whose value is not a string. */
    | RefNotAString
    /** `KeyError`: a step of a `$ref` names a key the mapping lacks. */
    | MissingKey(key: string)
    /** `TypeError`: a string key used on a node that is not a mapping. */
    | NotSubscriptable(key: string)
    /** `TypeError`: `'$ref' in node` on a null, boolean or number. */
    | NotAContainer
    /** `AttributeError`: `.get` or `.items` on a node that is not a mapping. */
    | NotAMapping(what: string)
    /** `AttributeError`: a parameter `name` that is not a string. */
    | NameNotAString
    /** `TypeError`: path-level and operation-level `parameters` cannot be concatenated. */
    | BadParameterList
    /** `AttributeError`: `servers[0].url` is not a string. */
    | UrlNotAString
}
