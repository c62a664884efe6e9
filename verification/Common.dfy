/** Failure types and the few ordering, selection and summation facts that several components share. */
module Common {

  datatype Option<+T> = None | Some(value: T)

  datatype Result<+T, +E> = Ok(value: T) | Err(error: E)

  function Min(a: int, b: int): (r: int) {
    if a <= b then a else b
  }

  /** The first n elements, or all of them when there are fewer: Python's `s[:n]` for n >= 0. */
  function Take<T>(s: seq<T>, n: nat): (r: seq<T>)
    ensures |r| == Min(n, |s|)
    ensures r <= s
  {
    if n <= |s| then s[..n] else s
  }

  // ---- Strings in code-point order -------------------------------------------------------

  predicate StringLess(a: string, b: string) {
    b != "" && (a == "" || a[0] < b[0] || (a[0] == b[0] && StringLess(a[1..], b[1..])))
  }

  lemma {:induction false} StringLessTotal(a: string, b: string)
    ensures StringLess(a, b) || a == b || StringLess(b, a)
    ensures !(StringLess(a, b) && StringLess(b, a))
    ensures !StringLess(a, a)
  {
    if a != "" {
      if b != "" && a[0] == b[0] {
        StringLessTotal(a[1..], b[1..]);
        assert a == [a[0]] + a[1..] && b == [b[0]] + b[1..];
      }
      StringLessTotal(a[1..], a[1..]);
    }
  }

  lemma {:induction false} StringLessTransitive(a: string, b: string, c: string)
    requires StringLess(a, b) && StringLess(b, c)
    ensures StringLess(a, c)
  {
    if a != "" && a[0] == b[0] == c[0] {
      StringLessTransitive(a[1..], b[1..], c[1..]);
    }
  }

  // ---- Sums over finite maps ---------------------------------------------------------------

  ghost function SumBy<K(!new), V>(m: map<K, V>, size: V -> nat): (total: nat) {
    if m == map[] then 0
    else
      var k :| k in m;
      size(m[k]) + SumBy(m - {k}, size)
  }

  /** The sum does not depend on the order in which the keys are visited. */
  lemma {:induction false} SumByRemove<K(!new), V>(m: map<K, V>, size: V -> nat, k: K)
    requires k in m
    ensures SumBy(m, size) == size(m[k]) + SumBy(m - {k}, size)
    decreases m
  {
    var c :| c in m && SumBy(m, size) == size(m[c]) + SumBy(m - {c}, size);
    if c != k {
      SumByRemove(m - {c}, size, k);
      SumByRemove(m - {k}, size, c);
      assert m - {c} - {k} == m - {k} - {c};
    }
  }

  lemma {:induction false} SumByInsert<K(!new), V>(m: map<K, V>, size: V -> nat, k: K, v: V)
    ensures k !in m ==> SumBy(m[k := v], size) == SumBy(m, size) + size(v)
    ensures k in m ==> SumBy(m[k := v], size) == SumBy(m, size) - size(m[k]) + size(v)
  {
    SumByRemove(m[k := v], size, k);
    assert m[k := v] - {k} == m - {k};
    if k in m {
      SumByRemove(m, size, k);
    } else {
      assert m - {k} == m;
    }
  }

  // ---- A finite set in increasing order ------------------------------------------------------

  predicate Increasing(s: seq<nat>) {
    forall i, j :: 0 <= i < j < |s| ==> s[i] < s[j]
  }

  lemma {:induction false} Minimum(s: set<nat>) returns (m: nat)
    requires s != {}
    ensures m in s && forall x :: x in s ==> m <= x
  {
    m :| m in s;
    var others := s - {m};
    assert forall x :: x in s ==> x == m || x in others;
    if others != {} {
      var n := Minimum(others);
      m := Min(m, n);
    }
  }

  function Elements(s: seq<nat>): set<nat> {
    set x | x in s
  }

  method Least(s: set<nat>) returns (least: nat)
    requires s != {}
    ensures least in s && forall x :: x in s ==> least <= x
  {
    ghost var minimum := Minimum(s);
    least :| least in s && forall x :: x in s ==> least <= x;
  }

  method Sorted(s: set<nat>) returns (ordered: seq<nat>)
    ensures Increasing(ordered) && Elements(ordered) == s
  {
    ordered := [];
    var rest := s;
    while rest != {}
      invariant rest <= s && Elements(ordered) == s - rest
      invariant Increasing(ordered)
      invariant forall i, y :: 0 <= i < |ordered| && y in rest ==> ordered[i] < y
    {
      var least := Least(rest);
      assert Elements(ordered + [least]) == Elements(ordered) + {least};
      ordered, rest := ordered + [least], rest - {least};
    }
  }
}
