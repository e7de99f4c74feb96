/** Small shared vocabulary: optional values, results, and enumeration of a query's keys. */
module Common {

  datatype Option<+T> = None | Some(value: T)

  datatype Result<+T, +E> = Ok(value: T) | Err(error: E)

  ghost predicate NoDuplicates<T>(xs: seq<T>) {
    forall i, j :: 0 <= i < j < |xs| ==> xs[i] != xs[j]
  }

  /** The rows of a query in some order. No result below depends on which order it is. */
  method Enumerate(keys: set<string>) returns (xs: seq<string>)
    ensures forall x :: x in xs <==> x in keys
    ensures NoDuplicates(xs)
  {
    xs := [];
    var rest := keys;
    while rest != {}
      invariant rest <= keys
      invariant forall x :: x in xs <==> x in keys - rest
      invariant NoDuplicates(xs)
      decreases |rest|
    {
      var x :| x in rest;
      xs := xs + [x];
      rest := rest - {x};
    }
  }
}
