/** Total orders and the `ORDER BY` clause: the rows of a finite set in ascending order. */
module Ordering {

  ghost predicate TotalOrder<T(!new)>(leq: (T, T) -> bool) {
    && (forall a, b :: leq(a, b) || leq(b, a))
    && (forall a, b :: leq(a, b) && leq(b, a) ==> a == b)
    && (forall a, b, c :: leq(a, b) && leq(b, c) ==> leq(a, c))
  }

  ghost predicate Ascending<T>(leq: (T, T) -> bool, rows: seq<T>) {
    forall i, j | 0 <= i < j < |rows| :: leq(rows[i], rows[j]) && rows[i] != rows[j]
  }

  ghost predicate ListsSet<T(!new)>(rows: seq<T>, s: set<T>) {
    forall x :: x in rows <==> x in s
  }

  lemma {:induction false} LeastExists<T(!new)>(s: set<T>, leq: (T, T) -> bool)
    requires TotalOrder(leq)
    requires s != {}
    ensures exists m :: m in s && forall y | y in s :: leq(m, y)
  {
    var x :| x in s;
    if s == {x} {
      assert forall y | y in s :: leq(x, y);
    } else {
      var rest := s - {x};
      assert s == rest + {x};
      LeastExists(rest, leq);
      var m :| m in rest && forall y | y in rest :: leq(m, y);
      var least := if leq(x, m) then x else m;
      assert forall y | y in s :: leq(least, y) by {
        forall y | y in s ensures leq(least, y) {
          assert y == x || y in rest;
        }
      }
    }
  }

  /** `ORDER BY`: the elements of `s`, each once, in ascending order. */
  function Sorted<T(!new)>(s: set<T>, leq: (T, T) -> bool): (rows: seq<T>)
    requires TotalOrder(leq)
    ensures ListsSet(rows, s)
    ensures Ascending(leq, rows)
    decreases |s|
  {
    if s == {} then []
    else
      LeastExists(s, leq);
      var m :| m in s && forall y | y in s :: leq(m, y);
      [m] + Sorted(s - {m}, leq)
  }

  /** An ascending listing of a set is unique, so `ORDER BY` is deterministic. */
  lemma {:induction false} ListingUnique<T(!new)>(a: seq<T>, b: seq<T>, s: set<T>, leq: (T, T) -> bool)
    requires TotalOrder(leq)
    requires ListsSet(a, s) && ListsSet(b, s)
    requires Ascending(leq, a) && Ascending(leq, b)
    ensures a == b
    decreases |a|
  {
    assert |b| > 0 ==> b[0] in b && b[0] in a;
    if a != [] {
      assert a[0] in a && a[0] in b;
      assert a[0] == b[0] by {
        assert a[0] in b && b[0] in a;
        var i :| 0 <= i < |b| && b[i] == a[0];
        var j :| 0 <= j < |a| && a[j] == b[0];
        assert leq(b[0], a[0]);
        assert leq(a[0], b[0]);
      }
      var rest := s - {a[0]};
      TailLists(a, s, leq);
      TailLists(b, s, leq);
      ListingUnique(a[1..], b[1..], rest, leq);
      assert a == [a[0]] + a[1..] && b == [b[0]] + b[1..];
    }
  }

  lemma TailLists<T(!new)>(a: seq<T>, s: set<T>, leq: (T, T) -> bool)
    requires ListsSet(a, s) && Ascending(leq, a) && a != []
    ensures ListsSet(a[1..], s - {a[0]}) && Ascending(leq, a[1..])
  {
    assert a[0] in a;
    assert a == [a[0]] + a[1..];
    forall x ensures x in a[1..] <==> x in s - {a[0]} {
      if x in a[1..] {
        var i :| 0 <= i < |a[1..]| && a[1..][i] == x;
        assert a[i + 1] == x;
        assert x in a;
      }
    }
  }

  /** The BINARY collation of SQLite: lexicographic by code point. */
  predicate TextLeq(a: string, b: string) {
    || a == []
    || (b != [] && (a[0] < b[0] || (a[0] == b[0] && TextLeq(a[1..], b[1..]))))
  }

  lemma {:induction false} TextLeqTotal(a: string, b: string)
    ensures TextLeq(a, b) || TextLeq(b, a)
  {
    if a != [] && b != [] && a[0] == b[0] {
      TextLeqTotal(a[1..], b[1..]);
    }
  }

  lemma {:induction false} TextLeqAntisymmetric(a: string, b: string)
    requires TextLeq(a, b) && TextLeq(b, a)
    ensures a == b
  {
    if a != [] && b != [] {
      TextLeqAntisymmetric(a[1..], b[1..]);
      assert a == [a[0]] + a[1..] && b == [b[0]] + b[1..];
    }
  }

  lemma {:induction false} TextLeqTransitive(a: string, b: string, c: string)
    requires TextLeq(a, b) && TextLeq(b, c)
    ensures TextLeq(a, c)
  {
    if a != [] && a[0] == b[0] == c[0] {
      TextLeqTransitive(a[1..], b[1..], c[1..]);
    }
  }

  lemma TextOrder()
    ensures TotalOrder(TextLeq)
  {
    forall a, b ensures TextLeq(a, b) || TextLeq(b, a) {
      TextLeqTotal(a, b);
    }
    forall a, b | TextLeq(a, b) && TextLeq(b, a) ensures a == b {
      TextLeqAntisymmetric(a, b);
    }
    forall a, b, c | TextLeq(a, b) && TextLeq(b, c) ensures TextLeq(a, c) {
      TextLeqTransitive(a, b, c);
    }
  }
}
