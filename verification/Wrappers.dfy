/** The optional value used for nullable columns and JavaScript's undefined and null, and writes to a table. */
module Wrappers {

  datatype Option<+T> = None | Some(value: T)

  /** The table has this row under the key, and otherwise the rows it had. */
  ghost predicate Put<K(!new), V(!new)>(before: map<K, V>, after: map<K, V>, key: K, row: V) {
    && key in after && after[key] == row
    && forall k | k != key :: (k in after <==> k in before) && (k in before ==> after[k] == before[k])
  }

}
