/** Optional values and success/failure results, used wherever the Python code returns
    None or raises. */
module Common {

  datatype Option<+T> = None | Some(value: T)

  datatype Result<+T, +E> = Success(value: T) | Failure(error: E)

  /** `a` is `b` with some elements left out, the rest kept in order. */
  predicate IsSubsequence<T(==)>(a: seq<T>, b: seq<T>)
  {
    if a == [] then true
    else if b == [] then false
    else if a[|a| - 1] == b[|b| - 1] then IsSubsequence(a[..|a| - 1], b[..|b| - 1])
    else IsSubsequence(a, b[..|b| - 1])
  }

  lemma {:induction false} SubsequenceDropLast<T>(a: seq<T>, b: seq<T>)
    requires a != [] && IsSubsequence(a, b)
    ensures IsSubsequence(a[..|a| - 1], b)
    decreases |a| + |b|
  {
    var a', b' := a[..|a| - 1], b[..|b| - 1];
    if a[|a| - 1] == b[|b| - 1] {
      SubsequenceExtend(a', b);
    } else {
      SubsequenceDropLast(a, b');
      SubsequenceExtend(a', b);
    }
  }

  lemma {:induction false} SubsequenceExtend<T>(a: seq<T>, b: seq<T>)
    requires b != [] && IsSubsequence(a, b[..|b| - 1])
    ensures IsSubsequence(a, b)
    decreases |a| + |b|
  {
    if a != [] && a[|a| - 1] == b[|b| - 1] {
      SubsequenceDropLast(a, b[..|b| - 1]);
    }
  }

  /** The sum of `f` over the elements of `rs`. */
  function Sum<T>(rs: seq<T>, f: T -> real): real
  {
    if rs == [] then 0.0 else Sum(rs[..|rs| - 1], f) + f(rs[|rs| - 1])
  }

  lemma {:induction false} SumConcat<T>(a: seq<T>, b: seq<T>, f: T -> real)
    ensures Sum(a + b, f) == Sum(a, f) + Sum(b, f)
  {
    if b == [] {
      assert a + b == a;
    } else {
      assert (a + b)[..|a + b| - 1] == a + b[..|b| - 1];
      assert (a + b)[|a + b| - 1] == b[|b| - 1];
      SumConcat(a, b[..|b| - 1], f);
    }
  }

  /** A sum does not depend on the order of its terms. */
  lemma {:induction false} SumPermutation<T>(a: seq<T>, b: seq<T>, f: T -> real)
    requires multiset(a) == multiset(b)
    ensures Sum(a, f) == Sum(b, f)
    decreases |a|
  {
    if a != [] {
      var n := |a| - 1;
      var x := a[n];
      assert x in multiset(b);
      var j :| 0 <= j < |b| && b[j] == x;
      var rest := b[..j] + b[j + 1..];
      MultisetRemove(b, j);
      MultisetRemove(a, n);
      assert a[..n] + a[n + 1..] == a[..n];
      SumPermutation(a[..n], rest, f);
      SumRemove(b, j, f);
    }
  }

  /** Taking one term out of a sum subtracts its value. */
  lemma {:induction false} SumRemove<T>(b: seq<T>, j: nat, f: T -> real)
    requires j < |b|
    ensures Sum(b, f) == Sum(b[..j] + b[j + 1..], f) + f(b[j])
  {
    var l, x, r := b[..j], b[j], b[j + 1..];
    var lx := l + [x];
    assert Sum(lx, f) == Sum(l, f) + f(x) by {
      assert lx[..|lx| - 1] == l;
    }
    assert Sum(b, f) == Sum(lx, f) + Sum(r, f) by {
      assert b == lx + r;
      SumConcat(lx, r, f);
    }
    assert Sum(l + r, f) == Sum(l, f) + Sum(r, f) by {
      SumConcat(l, r, f);
    }
  }

  /** The `f(x)` that are `Some`, in the order of `s`: a list comprehension with a filter. */
  function FilterMap<T, U>(s: seq<T>, f: T -> Option<U>): (r: seq<U>)
    ensures |r| <= |s|
  {
    if s == [] then []
    else
      var init := FilterMap(s[..|s| - 1], f);
      match f(s[|s| - 1])
      case Some(u) => init + [u]
      case None => init
  }

  lemma {:induction false} FilterMapConcat<T, U>(a: seq<T>, b: seq<T>, f: T -> Option<U>)
    ensures FilterMap(a + b, f) == FilterMap(a, f) + FilterMap(b, f)
  {
    if b == [] {
      assert a + b == a;
    } else {
      assert (a + b)[..|a + b| - 1] == a + b[..|b| - 1];
      assert (a + b)[|a + b| - 1] == b[|b| - 1];
      FilterMapConcat(a, b[..|b| - 1], f);
    }
  }

  /** Taking one element out of the input takes its image out of the output. */
  lemma {:induction false} FilterMapRemove<T, U>(b: seq<T>, j: nat, f: T -> Option<U>)
    requires j < |b|
    ensures multiset(FilterMap(b, f))
      == multiset(FilterMap(b[..j] + b[j + 1..], f)) + multiset(FilterMap([b[j]], f))
  {
    var l, m, r := b[..j], [b[j]], b[j + 1..];
    assert b == l + m + r;
    FilterMapConcat(l + m, r, f);
    FilterMapConcat(l, m, f);
    FilterMapConcat(l, r, f);
    var fl, fm, fr := FilterMap(l, f), FilterMap(m, f), FilterMap(r, f);
    assert FilterMap(b, f) == fl + fm + fr;
    assert multiset(fl + fm + fr) == multiset(fl) + multiset(fm) + multiset(fr);
    assert multiset(fl + fr) == multiset(fl) + multiset(fr);
  }

  /** Reordering the input only reorders the output. */
  lemma {:induction false} FilterMapPermutation<T, U>(a: seq<T>, b: seq<T>, f: T -> Option<U>)
    requires multiset(a) == multiset(b)
    ensures multiset(FilterMap(a, f)) == multiset(FilterMap(b, f))
    decreases |a|
  {
    if a == [] {
      assert |b| == |multiset(b)| == 0;
    } else {
      var n := |a| - 1;
      var x := a[n];
      assert x in multiset(b);
      var j :| 0 <= j < |b| && b[j] == x;
      var rest := b[..j] + b[j + 1..];
      MultisetRemove(b, j);
      MultisetRemove(a, n);
      assert a[..n] + a[n + 1..] == a[..n];
      FilterMapPermutation(a[..n], rest, f);
      FilterMapRemove(a, n, f);
      FilterMapRemove(b, j, f);
    }
  }

  /** Cutting out the element at `j` removes one occurrence of it. */
  lemma {:induction false} MultisetRemove<T>(b: seq<T>, j: nat)
    requires j < |b|
    ensures multiset(b[..j] + b[j + 1..]) == multiset(b) - multiset{b[j]}
  {
    assert b == b[..j] + [b[j]] + b[j + 1..];
  }

  /** An output element is the image of some input element, and every image is output. */
  lemma {:induction false} FilterMapMembers<T, U>(s: seq<T>, f: T -> Option<U>)
    ensures forall y :: y in FilterMap(s, f) <==> exists i :: 0 <= i < |s| && f(s[i]) == Some(y)
  {
    forall y ensures y in FilterMap(s, f) <==> exists i :: 0 <= i < |s| && f(s[i]) == Some(y) {
      FilterMapMember(s, f, y);
    }
  }

  /** `y` is output exactly when some input element maps to it. */
  lemma {:induction false} FilterMapMember<T, U>(s: seq<T>, f: T -> Option<U>, y: U)
    ensures y in FilterMap(s, f) <==> exists i :: 0 <= i < |s| && f(s[i]) == Some(y)
  {
    if s != [] {
      var n := |s| - 1;
      FilterMapMember(s[..n], f, y);
      if exists i :: 0 <= i < |s| && f(s[i]) == Some(y) {
        var i :| 0 <= i < |s| && f(s[i]) == Some(y);
        if i < n {
          assert s[..n][i] == s[i];
        }
      }
      if y in FilterMap(s[..n], f) {
        var i :| 0 <= i < n && f(s[..n][i]) == Some(y);
        assert s[..n][i] == s[i];
      }
    }
  }

  lemma {:induction false} FilterMapEmpty<T, U>(s: seq<T>, f: T -> Option<U>)
    ensures FilterMap(s, f) == [] <==> forall i :: 0 <= i < |s| ==> f(s[i]).None?
  {
    if s != [] {
      var n := |s| - 1;
      FilterMapEmpty(s[..n], f);
      forall i | 0 <= i < n ensures s[..n][i] == s[i] {}
    }
  }

  lemma {:induction false} FilterMapHas<T, U>(s: seq<T>, i: nat, f: T -> Option<U>)
    requires i < |s| && f(s[i]).Some?
    ensures f(s[i]).value in FilterMap(s, f)
  {
    var n := |s| - 1;
    if i < n {
      assert s[..n][i] == s[i];
      FilterMapHas(s[..n], i, f);
    }
  }
}
