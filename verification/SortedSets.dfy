/** Python's `sorted` on a finite set, in any total order. */
module SortedSets {

  ghost predicate Total<T(!new)>(le: (T, T) -> bool) {
    forall a: T, b: T :: le(a, b) || le(b, a)
  }

  ghost predicate Antisymmetric<T(!new)>(le: (T, T) -> bool) {
    forall a: T, b: T :: le(a, b) && le(b, a) ==> a == b
  }

  ghost predicate Transitive<T(!new)>(le: (T, T) -> bool) {
    forall a: T, b: T, c: T :: le(a, b) && le(b, c) ==> le(a, c)
  }

  ghost predicate IsOrder<T(!new)>(le: (T, T) -> bool) {
    Total(le) && Antisymmetric(le) && Transitive(le)
  }

  ghost predicate Ascending<T(!new)>(r: seq<T>, le: (T, T) -> bool) {
    forall i, j | 0 <= i < j < |r| :: le(r[i], r[j]) && r[i] != r[j]
  }

  predicate IsLeast<T>(m: T, s: set<T>, le: (T, T) -> bool) {
    m in s && forall x | x in s :: le(m, x)
  }

  lemma SomeElement<T>(s: set<T>)
    ensures s == {} || exists x :: x in s
  {
    assert (forall x :: x !in s) ==> s == {};
  }

  lemma {:induction false} LeastExists<T(!new)>(s: set<T>, le: (T, T) -> bool) returns (m: T)
    requires s != {} && IsOrder(le)
    ensures IsLeast(m, s, le)
    decreases |s|
  {
    SomeElement(s);
    m :| m in s;
    var rest := s - {m};
    assert s == rest + {m};
    assert le(m, m) || le(m, m);
    if rest != {} {
      var least := LeastExists(rest, le);
      if le(m, least) {
        forall x | x in rest ensures le(m, x) {
          assert le(least, x);
        }
      } else {
        assert le(least, m);
        m := least;
      }
    }
  }

  lemma LeastIsUnique<T(!new)>(s: set<T>, le: (T, T) -> bool)
    requires IsOrder(le)
    ensures forall a, b | IsLeast(a, s, le) && IsLeast(b, s, le) :: a == b
  {
  }

  function Least<T(==, !new)>(s: set<T>, le: (T, T) -> bool): (m: T)
    requires s != {} && IsOrder(le)
    ensures IsLeast(m, s, le)
  {
    assert exists m :: IsLeast(m, s, le) by {
      var m := LeastExists(s, le);
    }
    LeastIsUnique(s, le);
    var m :| IsLeast(m, s, le);
    m
  }

  function Sorted<T(==, !new)>(s: set<T>, le: (T, T) -> bool): (r: seq<T>)
    requires IsOrder(le)
    ensures Ascending(r, le) && forall x :: x in r <==> x in s
    decreases |s|
  {
    if s == {} then []
    else
      var m := Least(s, le);
      var rest := Sorted(s - {m}, le);
      assert forall i | 0 <= i < |rest| :: rest[i] in rest && le(m, rest[i]);
      [m] + rest
  }
}
