/** Small types shared by the models. */
module Common {
  datatype Option<+T> = None | Some(value: T)

  datatype Result<+T> = Success(value: T) | Failure(error: string)

  ghost predicate NoDuplicates<T>(s: seq<T>) {
    forall i, j :: 0 <= i < j < |s| ==> s[i] != s[j]
  }

  /** `len(s) != len(set(s))`. */
  method HasRepeats<T(==)>(s: seq<T>) returns (repeats: bool)
    ensures repeats <==> !NoDuplicates(s)
  {
    var seen: set<T> := {};
    for i := 0 to |s|
      invariant forall x :: x in seen <==> x in s[..i]
      invariant NoDuplicates(s[..i])
    {
      if s[i] in seen {
        assert s[i] in s[..i];
        return true;
      }
      seen := seen + {s[i]};
      assert s[..i + 1] == s[..i] + [s[i]];
    }
    assert s[..|s|] == s;
    return false;
  }
}
