/** Small vocabulary shared by the component models. */
module Prelude {

  datatype Option<+T> = None | Some(value: T)

  /** f64::max on ordinary numbers. */
  function Max(a: real, b: real): real {
    if a >= b then a else b
  }

  /** f64::min on ordinary numbers. */
  function Min(a: real, b: real): real {
    if a <= b then a else b
  }

  /** `x.clamp(0.0, 1.0)`. */
  function Clamp01(x: real): real {
    if x < 0.0 then 0.0 else if x > 1.0 then 1.0 else x
  }

  lemma MultisetAround<T>(s: seq<T>, j: nat)
    requires j < |s|
    ensures multiset(s) == multiset(s[..j] + s[j + 1..]) + multiset{s[j]}
  {
    assert s == s[..j] + ([s[j]] + s[j + 1..]);
  }

  lemma SameWithoutOne<T>(m: multiset<T>, n: multiset<T>, x: T)
    requires m + multiset{x} == n + multiset{x}
    ensures m == n
  {
    assert m == m + multiset{x} - multiset{x};
    assert n == n + multiset{x} - multiset{x};
  }

  /** The head of a sequence can be taken out of any rearrangement of it, leaving a rearrangement of the tail. */
  lemma TakeOutHead<T>(a: seq<T>, b: seq<T>) returns (j: nat)
    requires a != [] && multiset(a) == multiset(b)
    ensures j < |b| && b[j] == a[0]
    ensures multiset(a[1..]) == multiset(b[..j] + b[j + 1..])
  {
    assert a[0] in multiset(b);
    j :| 0 <= j < |b| && b[j] == a[0];
    MultisetAround(b, j);
    MultisetAround(a, 0);
    assert a[..0] + a[1..] == a[1..];
    SameWithoutOne(multiset(a[1..]), multiset(b[..j] + b[j + 1..]), a[0]);
  }

  lemma ScaleStrictly(a: real, b: real, n: real)
    requires a < b && n > 0.0
    ensures a * n < b * n
  {
    assert (b - a) * n > 0.0;
  }

  /** A sum of n terms between lo and hi has its mean there too. */
  lemma DivideBounds(s: real, n: real, lo: real, hi: real)
    requires n > 0.0 && n * lo <= s <= n * hi
    ensures lo <= s / n <= hi
  {
    var q := s / n;
    assert q * n == s;
    if q < lo {
      ScaleStrictly(q, lo, n);
    }
    if q > hi {
      ScaleStrictly(hi, q, n);
    }
  }

  lemma DivideMonotone(a: real, b: real, n: real)
    requires a <= b && n > 0.0
    ensures a / n <= b / n
  {
    var p, q := a / n, b / n;
    assert p * n == a && q * n == b;
    if q < p {
      ScaleStrictly(q, p, n);
    }
  }

  // ---- Selections ----

  /** Positions below n, in ascending order. */
  ghost predicate Climbing(at: seq<nat>, n: nat) {
    && (forall i :: 0 <= i < |at| ==> at[i] < n)
    && (forall i, j :: 0 <= i < j < |at| ==> at[i] < at[j])
  }

  /** `r` is, in order and each as often, the images of exactly the elements of `s` worth keeping; `at` says where they stood. */
  ghost predicate Selected<T(!new), U>(at: seq<nat>, s: seq<T>, r: seq<U>, keep: T -> bool, image: T -> U) {
    && Climbing(at, |s|)
    && |at| == |r|
    && (forall i :: 0 <= i < |at| ==> keep(s[at[i]]) && r[i] == image(s[at[i]]))
    && (forall k :: 0 <= k < |s| && keep(s[k]) ==> k in at)
  }

  lemma SelectedMore<T(!new), U>(at: seq<nat>, s: seq<T>, r: seq<U>, keep: T -> bool, image: T -> U, x: T)
    requires Selected(at, s, r, keep, image) && keep(x)
    ensures Selected(at + [|s|], s + [x], r + [image(x)], keep, image)
  {
    var more := at + [|s|];
    forall k | 0 <= k < |s + [x]| && keep((s + [x])[k])
      ensures k in more
    {
      if k < |s| {
        assert keep(s[k]);
      } else {
        assert more[|at|] == k;
      }
    }
  }

  lemma SelectedNoMore<T(!new), U>(at: seq<nat>, s: seq<T>, r: seq<U>, keep: T -> bool, image: T -> U, x: T)
    requires Selected(at, s, r, keep, image) && !keep(x)
    ensures Selected(at, s + [x], r, keep, image)
  {
    forall k | 0 <= k < |s + [x]| && keep((s + [x])[k])
      ensures k in at
    {
      assert keep(s[k]);
    }
  }

  // ---- Sums ----

  function Sum(s: seq<real>): real {
    if s == [] then 0.0 else s[0] + Sum(s[1..])
  }

  lemma {:induction false} SumSplits(a: seq<real>, b: seq<real>)
    ensures Sum(a + b) == Sum(a) + Sum(b)
  {
    if a == [] {
      assert a + b == b;
    } else {
      assert (a + b)[1..] == a[1..] + b;
      SumSplits(a[1..], b);
    }
  }

  lemma {:induction false} SumIgnoresOrder(a: seq<real>, b: seq<real>)
    requires multiset(a) == multiset(b)
    ensures Sum(a) == Sum(b)
  {
    if a == [] {
      assert |multiset(b)| == 0;
    } else {
      var j := TakeOutHead(a, b);
      assert b == b[..j] + ([b[j]] + b[j + 1..]);
      SumIgnoresOrder(a[1..], b[..j] + b[j + 1..]);
      SumSplits(b[..j], [b[j]] + b[j + 1..]);
      SumSplits(b[..j], b[j + 1..]);
    }
  }

  lemma {:induction false} SumBetween(s: seq<real>, lo: real, hi: real)
    requires forall i :: 0 <= i < |s| ==> lo <= s[i] <= hi
    ensures |s| as real * lo <= Sum(s) <= |s| as real * hi
  {
    if s == [] {
    } else {
      SumBetween(s[1..], lo, hi);
      var n := |s[1..]| as real;
      assert |s| as real == n + 1.0;
      assert (n + 1.0) * lo == n * lo + lo && (n + 1.0) * hi == n * hi + hi;
    }
  }

  lemma {:induction false} SumMonotone(a: seq<real>, b: seq<real>)
    requires |a| == |b| && forall i :: 0 <= i < |a| ==> a[i] <= b[i]
    ensures Sum(a) <= Sum(b)
  {
    if a == [] {
    } else {
      SumMonotone(a[1..], b[1..]);
    }
  }

  /** Terms of which none is negative and one is positive have a positive sum. */
  lemma {:induction false} SumPositive(s: seq<real>, i: nat)
    requires i < |s| && s[i] > 0.0 && forall k :: 0 <= k < |s| ==> 0.0 <= s[k]
    ensures Sum(s) > 0.0
  {
    if i == 0 {
      SumMonotone(seq(|s[1..]|, k => 0.0), s[1..]);
      SumOfZeros(|s[1..]|);
    } else {
      SumPositive(s[1..], i - 1);
    }
  }

  /** A sum of terms of which none is negative is at least each of them. */
  lemma {:induction false} SumAtLeast(s: seq<real>, i: nat)
    requires i < |s| && forall k :: 0 <= k < |s| ==> 0.0 <= s[k]
    ensures Sum(s) >= s[i]
  {
    if i == 0 {
      SumMonotone(seq(|s[1..]|, k => 0.0), s[1..]);
      SumOfZeros(|s[1..]|);
    } else {
      SumAtLeast(s[1..], i - 1);
    }
  }

  lemma {:induction false} SumOfZeros(n: nat)
    ensures Sum(seq(n, k => 0.0)) == 0.0
  {
    if n == 0 {
    } else {
      assert seq(n, k => 0.0)[1..] == seq(n - 1, k => 0.0);
      SumOfZeros(n - 1);
    }
  }
}
