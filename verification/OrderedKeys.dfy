/** Range seeks over an ordered table: the first key strictly after a cursor. */
module OrderedKeys {
  import opened Wrappers

  predicate Past(cursor: Option<int>, k: int) {
    cursor.None? || cursor.value < k
  }

  /** Strictly after the cursor; a cursor that has not started lies before every key. */
  ghost predicate Beyond(cursor: Option<int>, k: int) {
    cursor.Some? ==> cursor.value < k
  }

  ghost predicate IsNext(keys: set<int>, cursor: Option<int>, next: Option<int>) {
    match next
    case None => forall k | k in keys :: !Beyond(cursor, k)
    case Some(n) =>
      && n in keys
      && Beyond(cursor, n)
      && forall k | k in keys && Beyond(cursor, k) :: n <= k
  }

  method Any<T>(keys: set<T>) returns (k: T)
    requires keys != {}
    ensures k in keys
  {
    k :| k in keys;
  }

  /** `range((Excluded(cursor), Unbounded)).next()` of an ordered table. */
  method Next(keys: set<int>, cursor: Option<int>) returns (next: Option<int>)
    ensures IsNext(keys, cursor, next)
  {
    next := None;
    var rest := keys;
    while rest != {}
      invariant rest <= keys
      invariant IsNext(keys - rest, cursor, next)
      decreases rest
    {
      var k := Any(rest);
      rest := rest - {k};
      if Past(cursor, k) && (next.None? || k < next.value) {
        next := Some(k);
      }
    }
    assert keys - rest == keys;
  }
}
