/** Option and Result, as used by every other module for absent values and
    for the exceptions the services raise. */
module Common {

  datatype Option<+T> = None | Some(value: T)

  datatype Result<+T, +E> = Ok(value: T) | Err(error: E)

  function GetOr<K, V>(m: map<K, V>, k: K, default: V): V {
    if k in m then m[k] else default
  }

  /** What a flush leaves in a column that was assigned: only a value that differs from the one the session sees is
      written. */
  function Column<T(==)>(seen: T, given: T, now: T): T {
    if seen == given then now else given
  }

  predicate Distinct<T(==)>(s: seq<T>) {
    forall i, j :: 0 <= i < j < |s| ==> s[i] != s[j]
  }

  lemma SomeMember<T(!new)>(s: set<T>)
    ensures s == {} || exists x :: x in s
  {
    if forall x: T :: x !in s {
      assert s == {};
    }
  }

  /** Some member of a set, in no particular order. */
  method PickOne<T(!new)>(s: set<T>) returns (x: T)
    requires s != {}
    ensures x in s
  {
    SomeMember(s);
    x :| x in s;
  }
}
