/** Finite counting arguments. */
module Counting {

  function Range(lo: int, hi: int): (r: set<int>)
    requires lo <= hi
    ensures forall i :: i in r <==> lo <= i < hi
    ensures |r| == hi - lo
    decreases hi - lo
  {
    if lo == hi then {} else Range(lo, hi - 1) + {hi - 1}
  }

  lemma {:induction false} SubsetSize<T>(a: set<T>, b: set<T>)
    requires a <= b
    ensures |a| <= |b|
    ensures |a| == |b| ==> a == b
  {
    if a != {} {
      var x :| x in a;
      SubsetSize(a - {x}, b - {x});
    }
  }

  /** The values of an injective map are as many as its keys. */
  lemma {:induction false} InjectiveValues<K, V>(m: map<K, V>)
    requires forall x, y :: x in m && y in m && m[x] == m[y] ==> x == y
    ensures |m.Values| == |m|
  {
    if m.Keys != {} {
      var x :| x in m.Keys;
      var rest := m - {x};
      InjectiveValues(rest);
      assert m.Values == rest.Values + {m[x]} by {
        forall v | v in m.Values ensures v in rest.Values + {m[x]} {
          var y :| y in m && m[y] == v;
          if y != x { assert y in rest && rest[y] == v; }
        }
        forall v | v in rest.Values + {m[x]} ensures v in m.Values {
          if v in rest.Values { var y :| y in rest && rest[y] == v; assert y in m && m[y] == v; }
        }
      }
      assert m[x] !in rest.Values;
      assert m.Keys == rest.Keys + {x};
      assert |m.Keys| == |m|;
      assert |rest.Keys| == |rest|;
    } else {
      assert m.Values == {};
    }
  }

  /** Pigeonhole: an injective map into lo..hi has at most hi - lo keys, and exactly as many only if it is onto. */
  lemma InjectionIntoRange<K>(m: map<K, int>, lo: int, hi: int)
    requires lo <= hi
    requires forall x, y :: x in m && y in m && m[x] == m[y] ==> x == y
    requires forall x :: x in m ==> lo <= m[x] < hi
    ensures |m| <= hi - lo
    ensures |m| == hi - lo <==> m.Values == Range(lo, hi)
  {
    InjectiveValues(m);
    assert m.Values <= Range(lo, hi);
    SubsetSize(m.Values, Range(lo, hi));
  }
}
