/** Go iterates over a map in an arbitrary order, so the order of every iteration is a parameter. */
module MapOrder {

  /** The order in which an iteration visits the keys of a map: each of them once. */
  ghost predicate IsOrder(order: seq<string>, keys: set<string>) {
    && (forall k :: k in order <==> k in keys)
    && (forall i, j :: 0 <= i < j < |order| ==> order[i] != order[j])
  }
}
