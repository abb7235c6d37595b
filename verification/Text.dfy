/** Strings (and byte strings) as sequences: substring search, Python's end slices, and
    the whitespace `str.strip` removes. */
module Text {

  predicate OccursAt<T(==)>(hay: seq<T>, needle: seq<T>, i: int) {
    0 <= i <= |hay| - |needle| && hay[i..i + |needle|] == needle
  }

  // `needle in hay`
  predicate Contains<T(==)>(hay: seq<T>, needle: seq<T>) {
    exists i :: 0 <= i <= |hay| && OccursAt(hay, needle, i)
  }

  // `s[:n]`
  function FirstN<T>(s: seq<T>, n: nat): seq<T> {
    if |s| <= n then s else s[..n]
  }

  // `s[-n:]` for n > 0, and the empty string for n == 0
  function LastN<T>(s: seq<T>, n: nat): seq<T> {
    if |s| <= n then s else s[|s| - n..]
  }

  // `"".join(parts)`
  function Join<T>(parts: seq<seq<T>>): seq<T> {
    if parts == [] then [] else Join(parts[..|parts| - 1]) + parts[|parts| - 1]
  }

  // The characters for which `str.isspace` holds.
  predicate IsSpace(c: char) {
    c in {' ', '\t', '\n', '\U{0B}', '\U{0C}', '\r', '\U{1C}', '\U{1D}', '\U{1E}', '\U{1F}', '\U{85}', '\U{A0}',
          '\U{1680}', '\U{2028}', '\U{2029}', '\U{202F}', '\U{205F}', '\U{3000}'}
    || '\U{2000}' <= c <= '\U{200A}'
  }

  // `s.strip()`
  function Strip(s: string): string {
    StripRight(StripLeft(s))
  }

  function StripLeft(s: string): string {
    if s != "" && IsSpace(s[0]) then StripLeft(s[1..]) else s
  }

  function StripRight(s: string): string {
    if s != "" && IsSpace(s[|s| - 1]) then StripRight(s[..|s| - 1]) else s
  }

  // What stripping leaves is a middle of the string between spaces, and begins and ends with
  // none; so nothing is left exactly of a blank string.
  lemma StripIs(s: string) returns (left: string, right: string)
    ensures s == left + Strip(s) + right && Blank(left) && Blank(right)
    ensures Strip(s) != "" ==> !IsSpace(Strip(s)[0]) && !IsSpace(Strip(s)[|Strip(s)| - 1])
    ensures Strip(s) == "" <==> Blank(s)
  {
    var t := StripLeft(s);
    left := StripLeftIs(s);
    right := StripRightIs(t);
    assert left + Strip(s) + right == s;
    if Strip(s) != "" {
      assert !IsSpace(s[|left|]);
    }
  }

  predicate Blank(s: string) {
    forall i :: 0 <= i < |s| ==> IsSpace(s[i])
  }

  lemma {:induction false} StripLeftIs(s: string) returns (left: string)
    ensures s == left + StripLeft(s) && Blank(left)
    ensures StripLeft(s) != "" ==> !IsSpace(StripLeft(s)[0])
  {
    if s == "" || !IsSpace(s[0]) {
      left := "";
    } else {
      left := StripLeftIs(s[1..]);
      left := [s[0]] + left;
    }
  }

  lemma {:induction false} StripRightIs(s: string) returns (right: string)
    ensures s == StripRight(s) + right && Blank(right)
    ensures StripRight(s) != "" ==> !IsSpace(StripRight(s)[|StripRight(s)| - 1])
  {
    if s == "" || !IsSpace(s[|s| - 1]) {
      right := "";
    } else {
      right := StripRightIs(s[..|s| - 1]);
      right := right + [s[|s| - 1]];
    }
  }

  lemma JoinAppend<T>(parts: seq<seq<T>>, p: seq<T>)
    ensures Join(parts + [p]) == Join(parts) + p
  {
    assert (parts + [p])[..|parts|] == parts;
  }

  lemma ContainsInMiddle<T>(p: seq<T>, h: seq<T>, s: seq<T>, needle: seq<T>)
    requires Contains(h, needle)
    ensures Contains(p + h + s, needle)
  {
    var i :| 0 <= i <= |h| && OccursAt(h, needle, i);
    var w := p + h + s;
    assert w[|p| + i..|p| + i + |needle|] == h[i..i + |needle|];
    assert OccursAt(w, needle, |p| + i);
  }

  // Searching `a + b` needs only `a` itself and the last |needle| - 1 characters of `a`.
  lemma ContainsConcat<T>(a: seq<T>, b: seq<T>, needle: seq<T>)
    requires needle != []
    ensures Contains(a + b, needle) <==> Contains(a, needle) || Contains(LastN(a, |needle| - 1) + b, needle)
  {
    var k := |needle| - 1;
    var t := LastN(a, k);
    var p := a[..|a| - |t|];
    assert a == p + t;
    assert p + (t + b) + [] == a + b;
    if Contains(t + b, needle) {
      ContainsInMiddle(p, t + b, [], needle);
    }
    if Contains(a, needle) {
      ContainsInMiddle([], a, b, needle);
      assert [] + a + b == a + b;
    }
    if i :| 0 <= i <= |a + b| && OccursAt(a + b, needle, i) {
      OccursInEither(a, b, needle, i);
    }
  }

  lemma OccursInEither<T>(a: seq<T>, b: seq<T>, needle: seq<T>, i: int)
    requires needle != [] && OccursAt(a + b, needle, i)
    ensures Contains(a, needle) || Contains(LastN(a, |needle| - 1) + b, needle)
  {
    var n, t := |needle|, LastN(a, |needle| - 1);
    var w, m := a + b, t + b;
    if i + n <= |a| {
      assert a[i..i + n] == w[i..i + n];
      assert OccursAt(a, needle, i);
    } else {
      var j := i - (|a| - |t|);
      assert 0 <= j && j + n <= |m|;
      assert m[j..j + n] == w[i..i + n];
      assert OccursAt(m, needle, j);
    }
  }

  // The tail of a growing string can be kept from the tail alone.
  lemma TailRolls<T>(a: seq<T>, b: seq<T>, k: nat)
    ensures LastN(LastN(a, k) + b, k) == LastN(a + b, k)
  {
  }

  // Likewise its head.
  lemma HeadGrows<T>(a: seq<T>, b: seq<T>, k: nat)
    ensures |FirstN(a, k)| < k ==> FirstN(a, k) == a && FirstN(a + b, k) == a + FirstN(b, k - |a|)
    ensures |FirstN(a, k)| >= k ==> FirstN(a + b, k) == FirstN(a, k)
  {
  }

  // A match across a one-character joint lies within |needle| - 1 characters of it.
  lemma ContainsAcross<T>(a: seq<T>, c: T, b: seq<T>, needle: seq<T>)
    requires needle != []
    ensures var k := |needle| - 1;
            Contains(a + [c] + b, needle)
            <==> Contains(a, needle) || Contains(b, needle) || Contains(LastN(a, k) + [c] + FirstN(b, k), needle)
  {
    var k := |needle| - 1;
    var t, h := LastN(a, k), FirstN(b, k);
    var p, s := a[..|a| - |t|], b[|h|..];
    var w, m := a + [c] + b, t + [c] + h;
    assert p + m + s == w;
    if Contains(m, needle) {
      ContainsInMiddle(p, m, s, needle);
    }
    if Contains(a, needle) {
      ContainsInMiddle([], a, [c] + b, needle);
      assert [] + a + ([c] + b) == w;
    }
    if Contains(b, needle) {
      ContainsInMiddle(a + [c], b, [], needle);
      assert a + [c] + b + [] == w;
    }
    if i :| 0 <= i <= |w| && OccursAt(w, needle, i) {
      OccursSomewhere(a, c, b, needle, i);
    }
  }

  lemma SliceOfSlice<T>(w: seq<T>, p: nat, len: nat, j: nat, n: nat)
    requires p + len <= |w| && j + n <= len
    ensures w[p..p + len][j..j + n] == w[p + j..p + j + n]
  {
    var m := w[p..p + len];
    var a, b := m[j..j + n], w[p + j..p + j + n];
    forall k | 0 <= k < n ensures a[k] == b[k] {
      assert a[k] == m[j + k];
    }
    assert a == b;
  }

  lemma OccursSomewhere<T>(a: seq<T>, c: T, b: seq<T>, needle: seq<T>, i: int)
    requires needle != [] && OccursAt(a + [c] + b, needle, i)
    ensures var k := |needle| - 1;
            Contains(a, needle) || Contains(b, needle) || Contains(LastN(a, k) + [c] + FirstN(b, k), needle)
  {
    var n := |needle|;
    var w := a + [c] + b;
    if i + n <= |a| {
      assert a[i..i + n] == w[i..i + n];
      assert OccursAt(a, needle, i);
    } else if i > |a| {
      var j := i - |a| - 1;
      assert b[j..j + n] == w[i..i + n];
      assert OccursAt(b, needle, j);
    } else {
      OccursAcross(a, c, b, needle, i);
    }
  }

  lemma OccursAcross<T>(a: seq<T>, c: T, b: seq<T>, needle: seq<T>, i: int)
    requires needle != [] && OccursAt(a + [c] + b, needle, i) && i <= |a| < i + |needle|
    ensures var k := |needle| - 1; Contains(LastN(a, k) + [c] + FirstN(b, k), needle)
  {
    var k, n := |needle| - 1, |needle|;
    var t, h := LastN(a, k), FirstN(b, k);
    var w, m := a + [c] + b, t + [c] + h;
    var from := |a| - |t|;
    var j := i - from;
    Middle(a[..from], t + [c] + h, b[|h|..], w);
    assert 0 <= j && j + n <= |m|;
    SliceOfSlice(w, from, |m|, j, n);
    assert OccursAt(m, needle, j);
  }

  lemma Middle<T>(p: seq<T>, m: seq<T>, s: seq<T>, w: seq<T>)
    requires w == p + m + s
    ensures w[|p|..|p| + |m|] == m
  {
  }
}
