/** Small value types shared by every component model. */
module Common {
  /** A value that the program represents as `X | None`. */
  datatype Option<+T> = None | Some(value: T)

  /** The outcome of an operation that the program ends with a return or a raise. */
  datatype Result<+T, +E> = Ok(value: T) | Err(error: E)

  /** `set(s)`. */
  function Elements<T(==)>(s: seq<T>): set<T> {
    set x | x in s
  }

  ghost predicate NoRepeats<T>(s: seq<T>) {
    forall i, j :: 0 <= i < j < |s| ==> s[i] != s[j]
  }

  /** A list has as many elements as distinct elements exactly when none repeats. */
  lemma {:induction false} DistinctBySize<T>(s: seq<T>)
    ensures |Elements(s)| <= |s|
    ensures |Elements(s)| == |s| <==> NoRepeats(s)
  {
    if s == [] {
      assert Elements(s) == {};
    } else {
      var n := |s| - 1;
      DistinctBySize(s[..n]);
      assert s == s[..n] + [s[n]];
      assert Elements(s) == Elements(s[..n]) + {s[n]};
      if s[n] in Elements(s[..n]) {
        assert Elements(s) == Elements(s[..n]);
        var i :| 0 <= i < n && s[..n][i] == s[n];
        assert s[i] == s[n];
      }
    }
  }
}
