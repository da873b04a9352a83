/** What every part of the model uses. */
module Collections {
  datatype Option<+T> = None | Some(value: T)

  /** Lists a set in no particular order, as ranging over a map does. */
  method ListSet<T(==)>(elements: set<T>) returns (s: seq<T>)
    ensures multiset(s) == multiset(elements)
  {
    s := [];
    var todo := elements;
    while todo != {}
      invariant multiset(s) + multiset(todo) == multiset(elements)
      decreases todo
    {
      var x :| x in todo;
      s := s + [x];
      todo := todo - {x};
    }
  }
}
