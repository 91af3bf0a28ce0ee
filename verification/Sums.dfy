// Sums of the values of a finite map, independent of the order in which the
// keys are visited.
module Sums {

  ghost function SumValues<K>(m: map<K, real>): real
  {
    if m.Keys == {} then 0.0 else
      var k :| k in m.Keys;
      m[k] + SumValues(m - {k})
  }

  // Any key can be taken out first.
  lemma {:induction false} SumRemove<K>(m: map<K, real>, k: K)
    requires k in m
    ensures SumValues(m) == m[k] + SumValues(m - {k})
    decreases |m|
  {
    var j :| j in m.Keys && SumValues(m) == m[j] + SumValues(m - {j});
    if j != k {
      SumRemove(m - {j}, k);
      SumRemove(m - {k}, j);
      assert m - {j} - {k} == m - {k} - {j};
    }
  }

  lemma {:induction false} SumInsert<K>(m: map<K, real>, k: K, v: real)
    requires k !in m
    ensures SumValues(m[k := v]) == SumValues(m) + v
  {
    SumRemove(m[k := v], k);
    assert m[k := v] - {k} == m;
  }

  lemma {:induction false} SumZero<K>(m: map<K, real>)
    requires forall k :: k in m ==> m[k] == 0.0
    ensures SumValues(m) == 0.0
    decreases |m|
  {
    if m.Keys != {} {
      var k :| k in m.Keys && SumValues(m) == m[k] + SumValues(m - {k});
      SumZero(m - {k});
    }
  }

  lemma {:induction false} SumAdd<K>(a: map<K, real>, b: map<K, real>, c: map<K, real>)
    requires a.Keys == b.Keys == c.Keys
    requires forall k :: k in c ==> c[k] == a[k] + b[k]
    ensures SumValues(c) == SumValues(a) + SumValues(b)
    decreases |c|
  {
    if c.Keys != {} {
      var k :| k in c.Keys;
      SumAdd(a - {k}, b - {k}, c - {k});
      SumRemove(a, k); SumRemove(b, k); SumRemove(c, k);
    }
  }

  // y is x times z.
  predicate IsTimes(x: real, z: real, y: real) { y == x * z }

  // A name for a product, so that the solver need not multiply it out.
  lemma {:induction false} Product(x: real, z: real) returns (y: real)
    ensures IsTimes(x, z, y)
  {
    y := x * z;
  }

  // Energy over time is the average power.
  lemma {:induction false} AveragePower(energyJ: real, elapsed: real)
    requires elapsed > 0.0
    ensures IsTimes(elapsed, energyJ / elapsed, energyJ)
  {
  }

  lemma {:induction false} TimesAdd(x: real, z: real, z': real, y: real, y': real)
    requires IsTimes(x, z, y) && IsTimes(x, z', y')
    ensures IsTimes(x, z + z', y + y')
  {
  }

  lemma {:induction false} SumScale<K>(a: map<K, real>, c: map<K, real>, x: real)
    requires a.Keys == c.Keys
    requires forall k :: k in c ==> IsTimes(x, a[k], c[k])
    ensures IsTimes(x, SumValues(a), SumValues(c))
    decreases |c|
  {
    if c.Keys != {} {
      var k :| k in c.Keys;
      SumScale(a - {k}, c - {k}, x);
      SumRemove(a, k); SumRemove(c, k);
      TimesAdd(x, a[k], SumValues(a - {k}), c[k], SumValues(c - {k}));
    }
  }

  lemma {:induction false} SumAtMost<K>(a: map<K, real>, b: map<K, real>)
    requires a.Keys == b.Keys
    requires forall k :: k in a ==> a[k] <= b[k]
    ensures SumValues(a) <= SumValues(b)
    decreases |a|
  {
    if a.Keys != {} {
      var k :| k in a.Keys && SumValues(a) == a[k] + SumValues(a - {k});
      SumAtMost(a - {k}, b - {k});
      SumRemove(b, k);
    } else {
      assert a == b;
    }
  }

  // Keys that carry zero do not matter.
  lemma {:induction false} SumExtend<K>(a: map<K, real>, b: map<K, real>)
    requires a.Keys <= b.Keys
    requires forall k :: k in b ==> b[k] == if k in a then a[k] else 0.0
    ensures SumValues(a) == SumValues(b)
    decreases |b|
  {
    if a.Keys == b.Keys {
      assert a == b;
    } else {
      assert exists k :: k in b.Keys && k !in a.Keys;
      var k :| k in b.Keys && k !in a.Keys;
      SumRemove(b, k);
      SumExtend(a, b - {k});
    }
  }

  // Between maps that are ordered key by key, equal sums force equal values.
  lemma {:induction false} SumEqualOnlyIfSame<K>(a: map<K, real>, b: map<K, real>)
    requires a.Keys == b.Keys
    requires forall k :: k in a ==> a[k] <= b[k]
    ensures SumValues(a) == SumValues(b) <==> a == b
  {
    if a != b {
      var k :| k in a && a[k] != b[k];
      SumRemove(a, k);
      SumRemove(b, k);
      SumAtMost(a - {k}, b - {k});
    }
  }

  // A one-to-one renaming of the keys keeps the sum.
  lemma {:induction false} SumRename<K, L>(m: map<K, real>, name: map<L, K>, m': map<L, real>)
    requires name.Keys == m'.Keys && name.Values == m.Keys
    requires forall j, l :: j in name && l in name && name[j] == name[l] ==> j == l
    requires forall l :: l in name ==> m'[l] == m[name[l]]
    ensures SumValues(m) == SumValues(m')
    decreases |m'|
  {
    if m'.Keys == {} {
      assert m.Keys == {};
    } else {
      var l :| l in m'.Keys;
      var rest := name - {l};
      assert rest.Values == m.Keys - {name[l]} by {
        forall k | k in m.Keys - {name[l]} ensures k in rest.Values {
          var j :| j in name && name[j] == k;
          assert j in rest;
        }
      }
      SumRename(m - {name[l]}, rest, m' - {l});
      SumRemove(m, name[l]);
      SumRemove(m', l);
    }
  }
}
