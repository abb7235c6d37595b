/** Python's insertion-ordered dictionaries, as sequences of key/value pairs.

    A dictionary with `Distinct` keys keeps the order in which keys were first
    assigned; assigning to a present key does not move it, `MoveToEnd` does. */
module OrderedDict {

  type Dict<K, V> = seq<(K, V)>

  predicate Distinct<K(==), V>(d: Dict<K, V>) {
    d != [] ==> !Has(d[1..], d[0].0) && Distinct(d[1..])
  }

  predicate Has<K(==), V>(d: Dict<K, V>, k: K) {
    d != [] && (d[0].0 == k || Has(d[1..], k))
  }

  function Get<K(==), V>(d: Dict<K, V>, k: K): V
    requires Has(d, k)
  {
    if d[0].0 == k then d[0].1 else Get(d[1..], k)
  }

  // The set of keys, in no order.
  function Keys<K(==), V>(d: Dict<K, V>): set<K> {
    if d == [] then {} else {d[0].0} + Keys(d[1..])
  }

  // `del d[k]`; an absent key leaves the dictionary as it is.
  function Delete<K(==), V>(d: Dict<K, V>, k: K): Dict<K, V> {
    if d == [] then []
    else if d[0].0 == k then d[1..]
    else [d[0]] + Delete(d[1..], k)
  }

  // `d[k] = v`.
  function Put<K(==), V>(d: Dict<K, V>, k: K, v: V): Dict<K, V> {
    if d == [] then [(k, v)]
    else if d[0].0 == k then [(k, v)] + d[1..]
    else [d[0]] + Put(d[1..], k, v)
  }

  // `d.move_to_end(k)`.
  function MoveToEnd<K(==), V>(d: Dict<K, V>, k: K): Dict<K, V>
    requires Has(d, k)
  {
    Delete(d, k) + [(k, Get(d, k))]
  }

  // The mapping a dictionary stands for once its order is forgotten.
  function AsMap<K(==), V>(d: Dict<K, V>): map<K, V> {
    if d == [] then map[] else AsMap(d[1..])[d[0].0 := d[0].1]
  }

  lemma KeysAreHas<K, V>(d: Dict<K, V>, k: K)
    ensures k in Keys(d) <==> Has(d, k)
  {
  }

  lemma {:induction false} HasIndex<K, V>(d: Dict<K, V>, k: K) returns (i: nat)
    requires Has(d, k)
    ensures i < |d| && d[i] == (k, Get(d, k))
  {
    if d[0].0 == k {
      i := 0;
    } else {
      i := HasIndex(d[1..], k);
      i := i + 1;
    }
  }

  lemma {:induction false} IndexHas<K, V>(d: Dict<K, V>, i: nat)
    requires i < |d|
    ensures Has(d, d[i].0)
    ensures Distinct(d) ==> Get(d, d[i].0) == d[i].1
  {
    if i == 0 {
    } else {
      IndexHas(d[1..], i - 1);
      assert d[1..][i - 1] == d[i];
    }
  }

  // Reading agrees with the map view.
  lemma {:induction false} AsMapReads<K, V>(d: Dict<K, V>, k: K)
    ensures k in AsMap(d) <==> Has(d, k)
    ensures Has(d, k) ==> AsMap(d)[k] == Get(d, k)
  {
    if d == [] {
    } else {
      AsMapReads(d[1..], k);
    }
  }

  lemma {:induction false} AsMapSize<K, V>(d: Dict<K, V>)
    requires Distinct(d)
    ensures |AsMap(d)| == |d|
    ensures AsMap(d).Keys == Keys(d)
  {
    if d == [] {
    } else {
      AsMapSize(d[1..]);
      AsMapReads(d[1..], d[0].0);
    }
  }

  // Deleting a key keeps the others, in order, and loses that key.
  lemma {:induction false} DeleteKeeps<K, V>(d: Dict<K, V>, k: K)
    requires Distinct(d)
    ensures Distinct(Delete(d, k)) && !Has(Delete(d, k), k)
    ensures forall x :: Has(Delete(d, k), x) ==> Has(d, x)
    ensures AsMap(Delete(d, k)) == AsMap(d) - {k}
    ensures Keys(Delete(d, k)) == Keys(d) - {k}
    ensures |Delete(d, k)| == if Has(d, k) then |d| - 1 else |d|
  {
    if d == [] {
    } else {
      var h, t := d[0], d[1..];
      AsMapReads(t, h.0);
      KeysAreHas(t, h.0);
      if h.0 != k {
        DeleteKeeps(t, k);
        var r := Delete(t, k);
        assert Delete(d, k)[0] == h && Delete(d, k)[1..] == r;
      }
    }
  }

  // What is read after an assignment, and after a deletion.
  lemma {:induction false} PutReads<K, V>(d: Dict<K, V>, k: K, v: V, x: K)
    ensures Has(Put(d, k, v), x) <==> x == k || Has(d, x)
    ensures Has(Put(d, k, v), x) ==> Get(Put(d, k, v), x) == if x == k then v else Get(d, x)
  {
    if d == [] {
    } else {
      PutReads(d[1..], k, v, x);
      assert d[0].0 == k ==> Put(d, k, v)[1..] == d[1..];
      assert d[0].0 != k ==> Put(d, k, v)[1..] == Put(d[1..], k, v);
    }
  }

  lemma {:induction false} PutTwice<K, V>(d: Dict<K, V>, k: K, u: V, v: V)
    ensures Put(Put(d, k, u), k, v) == Put(d, k, v)
  {
    if d == [] {
    } else {
      PutTwice(d[1..], k, u, v);
      assert d[0].0 == k ==> Put(d, k, u)[1..] == d[1..];
      assert d[0].0 != k ==> Put(d, k, u)[1..] == Put(d[1..], k, u);
    }
  }

  lemma {:induction false} DeleteReads<K, V>(d: Dict<K, V>, k: K, x: K)
    requires Distinct(d)
    ensures Has(Delete(d, k), x) <==> x != k && Has(d, x)
    ensures Has(Delete(d, k), x) ==> Get(Delete(d, k), x) == Get(d, x)
  {
    if d == [] {
    } else if d[0].0 != k {
      DeleteReads(d[1..], k, x);
      assert Delete(d, k)[1..] == Delete(d[1..], k);
    }
  }

  // Assigning moves nothing and agrees with the map view.
  lemma {:induction false} PutKeeps<K, V>(d: Dict<K, V>, k: K, v: V)
    requires Distinct(d)
    ensures Distinct(Put(d, k, v))
    ensures forall x :: Has(Put(d, k, v), x) <==> x == k || Has(d, x)
    ensures AsMap(Put(d, k, v)) == AsMap(d)[k := v]
    ensures Keys(Put(d, k, v)) == Keys(d) + {k}
    ensures !Has(d, k) ==> Put(d, k, v) == d + [(k, v)]
  {
    if d == [] {
    } else {
      var h, t := d[0], d[1..];
      if h.0 == k {
        assert Put(d, k, v)[1..] == t;
      } else {
        PutKeeps(t, k, v);
        assert Put(d, k, v)[1..] == Put(t, k, v);
        assert !Has(t, k) ==> [h] + (t + [(k, v)]) == d + [(k, v)];
      }
    }
  }

  // `move_to_end` followed by an assignment to the same key.
  lemma TouchIsDeleteThenAppend<K, V>(d: Dict<K, V>, k: K, v: V)
    requires Distinct(d) && Has(d, k)
    ensures Put(MoveToEnd(d, k), k, v) == Delete(d, k) + [(k, v)]
  {
    DeleteKeeps(d, k);
    PutLast(Delete(d, k), k, Get(d, k), v);
  }

  lemma {:induction false} PutLast<K, V>(d: Dict<K, V>, k: K, u: V, v: V)
    requires !Has(d, k)
    ensures Put(d + [(k, u)], k, v) == d + [(k, v)]
  {
    if d != [] {
      PutLast(d[1..], k, u, v);
      assert (d + [(k, u)])[1..] == d[1..] + [(k, u)];
      assert [d[0]] + (d[1..] + [(k, v)]) == d + [(k, v)];
    } else {
      assert d + [(k, u)] == [(k, u)];
    }
  }

  // Deleting from a concatenation deletes from the part that holds the key.
  lemma {:induction false} DeleteFromConcat<K, V>(p: Dict<K, V>, s: Dict<K, V>, k: K)
    ensures Has(p + s, k) <==> Has(p, k) || Has(s, k)
    ensures Delete(p + s, k) == if Has(p, k) then Delete(p, k) + s else p + Delete(s, k)
  {
    if p == [] {
      assert p + s == s;
      assert p + Delete(s, k) == Delete(s, k);
    } else {
      var h, t := p[0], p[1..];
      assert (p + s)[0] == h && (p + s)[1..] == t + s;
      DeleteFromConcat(t, s, k);
      if h.0 != k {
        if Has(t, k) {
          assert [h] + (Delete(t, k) + s) == ([h] + Delete(t, k)) + s;
        } else {
          assert [h] + (t + Delete(s, k)) == p + Delete(s, k);
        }
      }
    }
  }

  // Distinctness of a concatenation, and of its parts.
  lemma {:induction false} DistinctConcat<K, V>(p: Dict<K, V>, s: Dict<K, V>)
    ensures Distinct(p + s) <==> Distinct(p) && Distinct(s) && Keys(p) !! Keys(s)
    ensures Keys(p + s) == Keys(p) + Keys(s)
  {
    if p == [] {
      assert p + s == s;
    } else {
      DistinctConcat(p[1..], s);
      assert (p + s)[1..] == p[1..] + s;
      KeysAreHas(p[1..] + s, p[0].0);
      KeysAreHas(p[1..], p[0].0);
    }
  }

  lemma {:induction false} DeleteAbsent<K, V>(d: Dict<K, V>, k: K)
    requires !Has(d, k)
    ensures Delete(d, k) == d
  {
    if d == [] {
    } else {
      DeleteAbsent(d[1..], k);
    }
  }

  // Where each remaining entry was before the deletion.
  lemma {:induction false} DeleteShifts<K, V>(d: Dict<K, V>, k: K) returns (i: nat)
    requires Has(d, k)
    ensures i < |d| && d[i].0 == k
    ensures Delete(d, k) == d[..i] + d[i + 1..]
  {
    if d[0].0 == k {
      i := 0;
    } else {
      var j := DeleteShifts(d[1..], k);
      i := j + 1;
      assert [d[0]] + d[1..][..j] == d[..i];
      assert d[1..][j + 1..] == d[i + 1..];
    }
  }

  lemma {:induction false} KeysDiffer<K, V>(d: Dict<K, V>, i: nat, j: nat)
    requires Distinct(d) && i < j < |d|
    ensures d[i].0 != d[j].0
  {
    if i == 0 {
      IndexHas(d[1..], j - 1);
    } else {
      KeysDiffer(d[1..], i - 1, j - 1);
    }
  }
}
