/** `is_ordered_subset`: a single pass over the second list, consuming it as the elements
    of the first are looked for in turn. */
module OrderedSubset {
  import opened Common

  // `a in it`: reads the iterator up to and including the first match; None if it runs dry.
  function Consume<T(==)>(it: seq<T>, a: T): (rest: Option<seq<T>>)
    ensures rest.Some? ==> |rest.value| < |it|
  {
    if it == [] then None else if it[0] == a then Some(it[1..]) else Consume(it[1..], a)
  }

  // `all(a in it for a in A)`
  predicate IsOrderedSubset<T(==)>(a: seq<T>, b: seq<T>) {
    a == [] || match Consume(b, a[0]) case None => false case Some(rest) => IsOrderedSubset(a[1..], rest)
  }

  // A strictly increasing map from the positions of `a` to equal elements of `b`.
  ghost predicate Embeds<T>(a: seq<T>, b: seq<T>, f: seq<nat>) {
    && |f| == |a|
    && (forall i :: 0 <= i < |f| ==> f[i] < |b| && b[f[i]] == a[i])
    && (forall i, j :: 0 <= i < j < |f| ==> f[i] < f[j])
  }

  // The first match, as a position.
  lemma {:induction false} ConsumeAt<T>(it: seq<T>, a: T) returns (n: nat)
    requires a in it
    ensures n < |it| && it[n] == a && a !in it[..n] && Consume(it, a) == Some(it[n + 1..])
  {
    if it[0] == a {
      n := 0;
    } else {
      n := ConsumeAt(it[1..], a);
      assert it == [it[0]] + it[1..] && it[..n + 1] == [it[0]] + it[1..][..n];
      n := n + 1;
    }
  }

  lemma {:induction false} ConsumeAbsent<T>(it: seq<T>, a: T)
    requires a !in it
    ensures Consume(it, a) == None
  {
    if it == [] {
    } else {
      ConsumeAbsent(it[1..], a);
    }
  }

  lemma {:induction false} GreedySound<T>(a: seq<T>, b: seq<T>) returns (f: seq<nat>)
    requires IsOrderedSubset(a, b)
    ensures Embeds(a, b, f)
  {
    if a == [] {
      f := [];
    } else {
      if a[0] !in b {
        ConsumeAbsent(b, a[0]);
      }
      var n := ConsumeAt(b, a[0]);
      var g := GreedySound(a[1..], b[n + 1..]);
      f := [n] + seq(|g|, i requires 0 <= i < |g| => g[i] + n + 1);
    }
  }

  // Matching each element at its first occurrence never loses an embedding.
  lemma {:induction false} GreedyComplete<T>(a: seq<T>, b: seq<T>, f: seq<nat>)
    requires Embeds(a, b, f)
    ensures IsOrderedSubset(a, b)
  {
    if a == [] {
    } else {
      assert b[f[0]] == a[0];
      var n := ConsumeAt(b, a[0]);
      forall i | 0 <= i < n ensures b[i] != a[0] {
        assert b[i] in b[..n];
      }
      var rest := b[n + 1..];
      var g := seq(|f| - 1, i requires 0 <= i < |f| - 1 => (f[i + 1] - n - 1) as nat);
      assert Embeds(a[1..], rest, g) by {
        forall i | 0 <= i < |g| ensures g[i] < |rest| && rest[g[i]] == a[1..][i] {
          assert f[0] < f[i + 1];
        }
      }
      GreedyComplete(a[1..], rest, g);
    }
  }

  // The greedy check accepts exactly the lists that embed.
  lemma OrderedSubsetIff<T>(a: seq<T>, b: seq<T>)
    ensures IsOrderedSubset(a, b) <==> exists f :: Embeds(a, b, f)
  {
    if IsOrderedSubset(a, b) {
      var f := GreedySound(a, b);
    }
    forall f | Embeds(a, b, f) ensures IsOrderedSubset(a, b) {
      GreedyComplete(a, b, f);
    }
  }

  lemma OrderedSubsetReflexive<T>(a: seq<T>)
    ensures IsOrderedSubset(a, a)
  {
    GreedyComplete(a, a, seq(|a|, i => i));
  }

  lemma OrderedSubsetTransitive<T>(a: seq<T>, b: seq<T>, c: seq<T>)
    requires IsOrderedSubset(a, b) && IsOrderedSubset(b, c)
    ensures IsOrderedSubset(a, c)
  {
    var f := GreedySound(a, b);
    var g := GreedySound(b, c);
    var h := seq(|f|, i requires 0 <= i < |f| => g[f[i]]);
    assert Embeds(a, c, h);
    GreedyComplete(a, c, h);
  }

  // Two lists that are ordered subsets of each other are equal.
  lemma OrderedSubsetAntisymmetric<T>(a: seq<T>, b: seq<T>)
    requires IsOrderedSubset(a, b) && IsOrderedSubset(b, a)
    ensures a == b
  {
    var f := GreedySound(a, b);
    var g := GreedySound(b, a);
    IncreasingGrows(f);
    IncreasingGrows(g);
    if |a| > 0 && |b| > 0 {
      assert f[|a| - 1] >= |a| - 1 && g[|b| - 1] >= |b| - 1;
    }
    assert |a| == |b|;
    SqueezedIdentity(f, |a|);
    assert forall i :: 0 <= i < |a| ==> a[i] == b[i];
  }

  lemma {:induction false} IncreasingGrows(f: seq<nat>)
    requires forall i, j :: 0 <= i < j < |f| ==> f[i] < f[j]
    ensures forall i :: 0 <= i < |f| ==> f[i] >= i
  {
    if f == [] {
    } else {
      var init := f[..|f| - 1];
      IncreasingGrows(init);
      if |f| > 1 {
        assert init[|f| - 2] >= |f| - 2;
      }
    }
  }

  // A strictly increasing sequence of n numbers below n is the identity.
  lemma {:induction false} SqueezedIdentity(f: seq<nat>, n: nat)
    requires |f| == n && (forall i, j :: 0 <= i < j < n ==> f[i] < f[j]) && forall i :: 0 <= i < n ==> f[i] < n
    ensures forall i :: 0 <= i < n ==> f[i] == i
  {
    if n == 0 {
    } else {
      IncreasingGrows(f);
      var init := f[..n - 1];
      assert forall i :: 0 <= i < n - 1 ==> init[i] < f[n - 1];
      SqueezedIdentity(init, n - 1);
    }
  }
}
