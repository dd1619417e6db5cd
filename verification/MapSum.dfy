/** Sums over the values of a map, for byte accounting, and the values themselves as a multiset. */
module MapSum {

  ghost function Sum<K, V>(m: map<K, V>, size: V -> nat): nat {
    if m == map[] then 0
    else
      var k :| k in m;
      size(m[k]) + Sum(m - {k}, size)
  }

  /** Any key may be taken out first. */
  lemma {:induction false} SumTake<K, V>(m: map<K, V>, size: V -> nat, k: K)
    requires k in m
    ensures Sum(m, size) == size(m[k]) + Sum(m - {k}, size)
  {
    var p :| p in m && Sum(m, size) == size(m[p]) + Sum(m - {p}, size);
    if p != k {
      SumTake(m - {p}, size, k);
      SumTake(m - {k}, size, p);
      assert m - {p} - {k} == m - {k} - {p};
    }
  }

  lemma SumSet<K, V>(m: map<K, V>, size: V -> nat, k: K, v: V)
    ensures Sum(m[k := v], size) == Sum(m, size) - (if k in m then size(m[k]) else 0) + size(v)
  {
    SumTake(m[k := v], size, k);
    assert m[k := v] - {k} == m - {k};
    if k in m {
      SumTake(m, size, k);
    } else {
      assert m - {k} == m;
    }
  }

  lemma {:induction false} SumOfZeros<K, V>(m: map<K, V>, size: V -> nat)
    requires forall k :: k in m ==> size(m[k]) == 0
    ensures Sum(m, size) == 0
  {
    if m != map[] {
      var k :| k in m;
      SumTake(m, size, k);
      SumOfZeros(m - {k}, size);
    }
  }

  ghost function Values<K, V>(m: map<K, V>): multiset<V> {
    if m == map[] then multiset{}
    else
      var k :| k in m;
      Values(m - {k}) + multiset{m[k]}
  }

  /** Any key may be taken out first. */
  lemma {:induction false} ValuesTake<K, V>(m: map<K, V>, k: K)
    requires k in m
    ensures Values(m) == Values(m - {k}) + multiset{m[k]}
  {
    var p :| p in m && Values(m) == Values(m - {p}) + multiset{m[p]};
    if p != k {
      RemoveOrder(m, p, k);
      ValuesTake(m - {p}, k);
      ValuesTake(m - {k}, p);
      PlusOrder(Values(m - {p} - {k}), multiset{m[k]}, multiset{m[p]});
    }
  }

  lemma RemoveOrder<K, V>(m: map<K, V>, p: K, k: K)
    ensures m - {p} - {k} == m - {k} - {p}
  {
  }

  lemma PlusOrder<V>(a: multiset<V>, b: multiset<V>, c: multiset<V>)
    ensures a + b + c == a + c + b
  {
  }

  /** The values do not depend on the names of the keys. */
  lemma {:induction false} ValuesRekey<K, L, V>(a: map<K, V>, b: map<L, V>, f: map<K, L>)
    requires forall k :: k in a <==> k in f
    requires forall j, k :: j in f && k in f && j != k ==> f[j] != f[k]
    requires forall k :: k in a ==> f[k] in b && b[f[k]] == a[k]
    requires forall l :: l in b ==> exists k :: k in f && f[k] == l
    ensures Values(a) == Values(b)
  {
    if a == map[] {
      assert b == map[];
    } else {
      var k :| k in a;
      ValuesTake(a, k);
      ValuesTake(b, f[k]);
      hide Values;
      RekeyRest(b, f, k);
      ValuesRekey(a - {k}, b - {f[k]}, f - {k});
    }
  }

  lemma RekeyRest<K, L, V>(b: map<L, V>, f: map<K, L>, k: K)
    requires k in f && forall l :: l in b ==> exists j :: j in f && f[j] == l
    ensures forall l :: l in b - {f[k]} ==> exists j :: j in f - {k} && (f - {k})[j] == l
  {
    forall l | l in b - {f[k]}
      ensures exists j :: j in f - {k} && (f - {k})[j] == l
    {
      var j :| j in f && f[j] == l;
      assert j in f - {k} && (f - {k})[j] == l;
    }
  }

  lemma SameMaps<K, V>(a: map<K, V>, b: map<K, V>)
    requires forall k :: k in a <==> k in b
    requires forall k :: k in a ==> a[k] == b[k]
    ensures a == b
  {
  }
}
