/** Counting and adding up over finite sets. */
module Sets {

  ghost function AnyOf<T(!new)>(s: set<T>): (x: T)
    requires s != {}
    ensures x in s
  {
    var x :| x in s; x
  }

  ghost function SumOf<T(!new)>(s: set<T>, size: T -> nat): nat {
    if s == {} then 0
    else
      var x := AnyOf(s);
      size(x) + SumOf(s - {x}, size)
  }

  lemma {:induction false} SumRemove<T(!new)>(s: set<T>, size: T -> nat, x: T)
    requires x in s
    ensures SumOf(s, size) == size(x) + SumOf(s - {x}, size)
  {
    var y := AnyOf(s);
    if y != x {
      SumRemove(s - {y}, size, x);
      SumRemove(s - {x}, size, y);
      assert s - {y} - {x} == s - {x} - {y};
    }
  }

  lemma {:induction false} SumSplits<T(!new)>(all: set<T>, part: set<T>, size: T -> nat)
    requires part <= all
    ensures SumOf(all, size) == SumOf(part, size) + SumOf(all - part, size)
    decreases part
  {
    if part == {} {
      assert all - part == all;
    } else {
      var x := AnyOf(part);
      var less, fewer := all - {x}, part - {x};
      SumRemove(all, size, x);
      SumSplits(less, fewer, size);
      assert less - fewer == all - part;
    }
  }

  lemma SizeSplits<T>(all: set<T>, part: set<T>)
    requires part <= all
    ensures |all| == |part| + |all - part|
  {
    assert all == part + (all - part);
  }

  lemma {:induction false} SumMonotone<T(!new)>(a: set<T>, b: set<T>, size: T -> nat)
    requires a <= b
    ensures SumOf(a, size) <= SumOf(b, size)
    decreases b
  {
    if a == {} {
    } else {
      var x := AnyOf(a);
      SumRemove(b, size, x);
      SumMonotone(a - {x}, b - {x}, size);
    }
  }

  /** Count a set's members and add up their sizes. */
  method Measure<T(!new)>(s: set<T>, size: T -> nat) returns (n: nat, total: nat)
    ensures n == |s| && total == SumOf(s, size)
  {
    n, total := 0, 0;
    var todo := s;
    while todo != {}
      invariant n + |todo| == |s| && total + SumOf(todo, size) == SumOf(s, size)
    {
      var x :| x in todo;
      SumRemove(todo, size, x);
      n, total := n + 1, total + size(x);
      todo := todo - {x};
    }
  }

  /** Remove a set of keys from a map, counting those it had and adding up their sizes. */
  method RemoveAll<K(!new), V>(m: map<K, V>, keys: set<K>, size: K -> nat) returns (rest: map<K, V>, n: nat, total: nat)
    ensures rest == m - keys
    ensures n == |keys * m.Keys| && total == SumOf(keys * m.Keys, size)
  {
    rest, n, total := m, 0, 0;
    var todo := keys * m.Keys;
    ghost var all := todo;
    while todo != {}
      invariant todo <= all
      invariant n + |todo| == |all| && total + SumOf(todo, size) == SumOf(all, size)
      invariant rest == m - (all - todo)
    {
      var k :| k in todo;
      SumRemove(todo, size, k);
      RemoveOne(m, all, todo, k);
      rest := rest - {k};
      n, total := n + 1, total + size(k);
      todo := todo - {k};
    }
    assert all - todo == all;
    RemovePresent(m, keys);
  }

  lemma RemovePresent<K, V>(m: map<K, V>, keys: set<K>)
    ensures m - (keys * m.Keys) == m - keys
  {
  }

  lemma RemoveOne<K, V>(m: map<K, V>, all: set<K>, todo: set<K>, k: K)
    requires todo <= all && k in todo
    ensures m - (all - todo) - {k} == m - (all - (todo - {k}))
  {
    assert all - (todo - {k}) == all - todo + {k};
  }

  /** Taking away a larger set leaves as many members exactly when the extra ones were not
      there, and then it leaves the same ones. */
  lemma DifferenceIff<T>(s: set<T>, larger: set<T>, smaller: set<T>)
    requires smaller <= larger
    ensures |s - larger| == |s - smaller| <==> larger * s <= smaller
    ensures larger * s <= smaller ==> s - larger == s - smaller
  {
    SameSize(s - larger, s - smaller);
    if larger * s <= smaller {
      forall x | x in s - smaller
        ensures x in s - larger
      {
        assert x in larger ==> x in larger * s;
      }
    }
    if s - larger == s - smaller {
      forall x | x in larger * s
        ensures x in smaller
      {
        assert x !in s - larger;
      }
    }
  }

  /** A subset with as many members is the set itself. */
  lemma SameSize<T>(a: set<T>, b: set<T>)
    requires a <= b
    ensures |a| == |b| <==> a == b
  {
    assert b == a + (b - a);
    assert |b| == |a| + |b - a|;
  }
}
