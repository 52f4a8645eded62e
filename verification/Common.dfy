/** What several parts share. */
module Common {

  datatype Option<+T> = None | Some(value: T)

  /** Time is in nanoseconds. */
  const SECOND: int := 1_000_000_000

  lemma {:induction false} SubsetSize<T>(a: set<T>, b: set<T>)
    requires a <= b
    ensures |a| <= |b|
  {
    if a != {} {
      var x :| x in a;
      SubsetSize(a - {x}, b - {x});
    }
  }
}
