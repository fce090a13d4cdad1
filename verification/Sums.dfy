/** Sums of the values of a finite map. */
module Sums {
  ghost function Sum<K(!new)>(m: map<K, nat>): nat
    decreases |m|
  {
    if m == map[] then 0 else
      var k :| k in m;
      assert |m - {k}| < |m| by { Shrinks(m, k); }
      m[k] + Sum(m - {k})
  }

  lemma Shrinks<K>(m: map<K, nat>, k: K)
    requires k in m
    ensures |m - {k}| < |m|
  {
    assert (m - {k}).Keys == m.Keys - {k};
  }

  lemma {:induction false} Without<K(!new)>(m: map<K, nat>, k: K)
    requires k in m
    ensures Sum(m) == m[k] + Sum(m - {k})
    decreases |m|
  {
    var j :| j in m && Sum(m) == m[j] + Sum(m - {j});
    if j != k {
      Shrinks(m, j);
      Shrinks(m, k);
      Without(m - {j}, k);
      Without(m - {k}, j);
      assert m - {j} - {k} == m - {k} - {j};
    }
  }

  lemma Inserted<K(!new)>(m: map<K, nat>, k: K, v: nat)
    requires k !in m
    ensures Sum(m[k := v]) == Sum(m) + v
  {
    Without(m[k := v], k);
    assert m[k := v] - {k} == m;
  }

  lemma DropFromUnion<K>(a: map<K, nat>, b: map<K, nat>, k: K)
    requires a.Keys !! b.Keys && k in b
    ensures (a + b)[k] == b[k] && (a + b) - {k} == a + (b - {k})
  {
  }

  lemma {:induction false} Union<K(!new)>(a: map<K, nat>, b: map<K, nat>)
    requires a.Keys !! b.Keys
    ensures Sum(a + b) == Sum(a) + Sum(b)
    decreases |b|
  {
    hide Sum;
    if b == map[] {
      assert a + b == a;
      EmptySum<K>();
    } else {
      var k :| k in b;
      DropFromUnion(a, b, k);
      Without(b, k);
      Without(a + b, k);
      Shrinks(b, k);
      Union(a, b - {k});
    }
  }

  lemma EmptySum<K(!new)>()
    ensures Sum<K>(map[]) == 0
  {
  }

  lemma {:induction false} ZeroExactly<K(!new)>(m: map<K, nat>)
    ensures Sum(m) == 0 <==> forall k :: k in m ==> m[k] == 0
    decreases |m|
  {
    if m == map[] {
    } else {
      var k :| k in m;
      Without(m, k);
      Shrinks(m, k);
      var rest := m - {k};
      ZeroExactly(rest);
      assert forall j :: j in m <==> j == k || j in rest;
      assert forall j :: j in rest ==> rest[j] == m[j];
    }
  }
}
