/**
 * An abstract view of a parsed YAML node (yaml_rust's `Yaml`), reduced to
 * what the configuration code distinguishes: a string scalar, a hash, and
 * every other kind of node (integers, reals, booleans, arrays, aliases, null,
 * bad values) folded into `Other`.
 */
module YamlTree {

  /**
   * A hash keeps its entries as an ordered sequence of key/value pairs, because
   * yaml_rust's hash is a linked hash map that iterates in insertion order.
   */
  datatype Yaml =
    | Str(s: string)
    | Hash(entries: seq<(Yaml, Yaml)>)
    | Other
}
