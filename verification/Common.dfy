/** Helpers shared by the models. */
module Common {

  datatype Option<+T> = None | Some(value: T)

  /** `order` lists the members of the set, each once: an order in which it may be iterated. */
  ghost predicate Enumerates<T>(order: seq<T>, members: set<T>) {
    && (forall i :: 0 <= i < |order| ==> order[i] in members)
    && (forall i, j :: 0 <= i < j < |order| ==> order[i] != order[j])
    && (forall x :: x in members ==> x in order)
  }
}
