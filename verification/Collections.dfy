/** Small facts about collections that several components need. */
module Collections {

  datatype Option<T> = None | Some(value: T)

  ghost predicate NoDuplicates<T>(s: seq<T>) {
    forall i, j :: 0 <= i < j < |s| ==> s[i] != s[j]
  }

  function SetOf<T(==)>(s: seq<T>): set<T> {
    set x | x in s
  }

  lemma SetOfAppend<T>(a: seq<T>, b: seq<T>)
    ensures SetOf(a + b) == SetOf(a) + SetOf(b)
  {
    assert forall x :: x in a + b <==> x in a || x in b;
  }

  lemma SomeKey<K, V>(m: map<K, V>) returns (k: K)
    requires |m| > 0
    ensures k in m
  {
    k :| k in m;
  }

  lemma {:induction false} SubsetSize<T>(a: set<T>, b: set<T>)
    requires forall x :: x in a ==> x in b
    ensures |a| <= |b|
    decreases |b|
  {
    if x :| x in a {
      SubsetSize(a - {x}, b - {x});
    } else {
      assert a == {};
    }
  }
}
