/** Documents under unique indexes, as two migrations that swap one index for another see them.

    A document has a key and may be marked. The full index keeps every key apart, the partial one the
    keys of marked documents: a vendor is marked when its email is a string, a review while it is live. */
module UniqueGuard {
  datatype Doc<K> = Doc(key: K, marked: bool)

  datatype Shape = Full | Partial | Other

  predicate Covers<K>(shape: Shape, d: Doc<K>) {
    match shape case Full => true case Partial => d.marked case Other => false
  }

  /** No two covered documents share a key. */
  predicate Holds<K(==)>(shape: Shape, docs: seq<Doc<K>>) {
    forall i, j :: 0 <= i < j < |docs| && Covers(shape, docs[i]) && Covers(shape, docs[j]) ==>
      docs[i].key != docs[j].key
  }
}
