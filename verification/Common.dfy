/** Small vocabulary shared by the other modules: optional values, bytes, and
    counting over a sequence. */
module Common {

  datatype Option<+T> = None | Some(value: T)

  type Byte = b: nat | b < 256

  /** The sum over `xs` of `f(x, k)`: with f a 0-or-1 indicator, how many
      elements of `xs` have the property f for k. */
  ghost function Sum<T(!new)>(xs: seq<T>, f: (T, nat) -> nat, k: nat): nat
  {
    if xs == [] then 0 else Sum(xs[..|xs| - 1], f, k) + f(xs[|xs| - 1], k)
  }

  lemma SumAppend<T(!new)>(xs: seq<T>, x: T, f: (T, nat) -> nat, k: nat)
    ensures Sum(xs + [x], f, k) == Sum(xs, f, k) + f(x, k)
  {
    assert (xs + [x])[..|xs|] == xs;
  }

  lemma {:induction false} SumHead<T(!new)>(xs: seq<T>, f: (T, nat) -> nat, k: nat)
    requires xs != []
    ensures Sum(xs, f, k) == f(xs[0], k) + Sum(xs[1..], f, k)
    decreases |xs|
  {
    if |xs| == 1 {
      assert xs[..0] == [] && xs[1..] == [];
    } else {
      var front := xs[..|xs| - 1];
      SumHead(front, f, k);
      assert xs[1..][..|xs| - 2] == front[1..];
    }
  }

  /** Replacing one element changes the sum by that element's contribution. */
  lemma {:induction false} SumUpdate<T(!new)>(xs: seq<T>, i: nat, x: T, f: (T, nat) -> nat, k: nat)
    requires i < |xs|
    ensures Sum(xs[i := x], f, k) + f(xs[i], k) == Sum(xs, f, k) + f(x, k)
    decreases |xs|
  {
    var n := |xs| - 1;
    if i == n {
      assert xs[i := x][..n] == xs[..n];
    } else {
      SumUpdate(xs[..n], i, x, f, k);
      assert xs[i := x][..n] == xs[..n][i := x];
    }
  }

  /** With an indicator, the sum is at most |xs|, and reaches it exactly when
      every element has the property. */
  lemma {:induction false} SumBound<T(!new)>(xs: seq<T>, f: (T, nat) -> nat, k: nat)
    requires forall x :: f(x, k) <= 1
    ensures Sum(xs, f, k) <= |xs|
    ensures Sum(xs, f, k) == |xs| <==> forall i :: 0 <= i < |xs| ==> f(xs[i], k) == 1
    decreases |xs|
  {
    if xs != [] {
      var n := |xs| - 1;
      SumBound(xs[..n], f, k);
      assert forall i :: 0 <= i < n ==> xs[..n][i] == xs[i];
    }
  }

  /** One element's contribution is part of the sum. */
  lemma {:induction false} SumIncludes<T(!new)>(xs: seq<T>, i: nat, f: (T, nat) -> nat, k: nat)
    requires i < |xs|
    ensures f(xs[i], k) <= Sum(xs, f, k)
    decreases |xs|
  {
    if i < |xs| - 1 {
      SumIncludes(xs[..|xs| - 1], i, f, k);
    }
  }

  /** Two different elements contribute separately. */
  lemma {:induction false} SumIncludesTwo<T(!new)>(xs: seq<T>, i: nat, j: nat, f: (T, nat) -> nat, k: nat)
    requires i < j < |xs|
    ensures f(xs[i], k) + f(xs[j], k) <= Sum(xs, f, k)
    decreases |xs|
  {
    if j < |xs| - 1 {
      SumIncludesTwo(xs[..|xs| - 1], i, j, f, k);
    } else {
      SumIncludes(xs[..|xs| - 1], i, f, k);
    }
  }

  lemma {:induction false} SumZero<T(!new)>(xs: seq<T>, f: (T, nat) -> nat, k: nat)
    requires forall i :: 0 <= i < |xs| ==> f(xs[i], k) == 0
    ensures Sum(xs, f, k) == 0
    decreases |xs|
  {
    if xs != [] {
      SumZero(xs[..|xs| - 1], f, k);
    }
  }

  /** A map that sends different keys to different numbers below n has at most n keys. */
  lemma {:induction false} InjectiveMapBound<K>(m: map<K, nat>, n: nat)
    requires forall k :: k in m ==> m[k] < n
    requires forall j, k :: j in m && k in m && m[j] == m[k] ==> j == k
    ensures |m| <= n
    decreases n
  {
    if n == 0 {
      assert m.Keys == {};
    } else if k :| k in m && m[k] == n - 1 {
      var rest := m - {k};
      assert rest.Keys == m.Keys - {k};
      InjectiveMapBound(rest, n - 1);
    } else {
      InjectiveMapBound(m, n - 1);
    }
  }
}
