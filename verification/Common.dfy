/** Outcome types shared by every component of the model. */
module Outcomes {
  datatype Option<+T> = None | Some(value: T)

  /** `Err` carries the error code the source attaches to the exception it throws. */
  datatype Result<+T> = Ok(value: T) | Err(code: string)
}

/** Accounts, devices, transfers and connections are named by UUIDs; the model only compares them. */
module Names {
  type Id = nat
}

/** Sums over finite maps: the shape of every redundant counter in the presence manager. */
module Sums {
  ghost function Sum<K>(m: map<K, nat>): nat
  {
    if m == map[] then 0 else
      var k :| k in m;
      m[k] + Sum(m - {k})
  }

  // Sum does not depend on the order in which the keys are visited.
  lemma {:induction false} SumRemove<K>(m: map<K, nat>, k: K)
    requires k in m
    ensures Sum(m) == m[k] + Sum(m - {k})
    decreases |m|
  {
    var first :| first in m && Sum(m) == m[first] + Sum(m - {first});
    if first != k {
      SumRemove(m - {first}, k);
      SumRemove(m - {k}, first);
      assert m - {first} - {k} == m - {k} - {first};
    }
  }

  lemma SumUpdate<K>(m: map<K, nat>, k: K, v: nat)
    ensures Sum(m[k := v]) == v + Sum(m - {k})
    ensures k !in m ==> Sum(m[k := v]) == v + Sum(m)
    ensures k in m ==> Sum(m[k := v]) == Sum(m) - m[k] + v
  {
    SumRemove(m[k := v], k);
    assert m[k := v] - {k} == m - {k};
    if k in m {
      SumRemove(m, k);
    } else {
      assert m - {k} == m;
    }
  }

  lemma {:induction false} SumZero<K>(m: map<K, nat>)
    ensures Sum(m) == 0 <==> forall k :: k in m ==> m[k] == 0
    decreases |m|
  {
    if m != map[] {
      var first :| first in m && Sum(m) == m[first] + Sum(m - {first});
      SumZero(m - {first});
      assert forall k :: k in m && k != first ==> k in m - {first} && (m - {first})[k] == m[k];
    }
  }
}

/** Sizes of sets. */
module Sets {
  lemma {:induction false} SubsetSize<T>(a: set<T>, b: set<T>)
    requires a <= b
    ensures |a| <= |b|
    decreases |a|
  {
    if a != {} {
      var x :| x in a;
      SubsetSize(a - {x}, b - {x});
    }
  }
}
