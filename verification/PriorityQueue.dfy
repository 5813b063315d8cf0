/** The contract of a priority queue's top: an element that no other one outranks. */
module PriorityQueue {

  /** lower(a, b) says that a has lower priority than b. */
  ghost predicate StrictWeakOrder<T(!new)>(lower: (T, T) -> bool) {
    && (forall a, b :: lower(a, b) ==> !lower(b, a))
    && (forall a, b, c :: lower(a, b) ==> lower(a, c) || lower(c, b))
  }

  ghost predicate IsTop<T(!new)>(queue: multiset<T>, lower: (T, T) -> bool, top: T) {
    top in queue && forall x :: x in queue ==> !lower(top, x)
  }

  method Top<T(==, !new)>(queue: multiset<T>, lower: (T, T) -> bool) returns (top: T)
    requires StrictWeakOrder(lower) && queue != multiset{}
    ensures IsTop(queue, lower, top)
  {
    top :| top in queue;
    var rest := queue;
    while rest != multiset{}
      invariant top in queue && rest <= queue
      invariant forall x :: x in queue && x !in rest ==> !lower(top, x)
      decreases rest
    {
      var x :| x in rest;
      if lower(top, x) {
        top := x;
      }
      rest := rest[x := 0];
    }
  }
}
