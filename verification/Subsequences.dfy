/** Sequences that keep some elements of another one, in its order. */
module Subsequences {
  /** a keeps some elements of b, in b's order. */
  ghost predicate Subsequence<T>(a: seq<T>, b: seq<T>) {
    a == [] || (b != [] &&
      ((a[|a| - 1] == b[|b| - 1] && Subsequence(a[..|a| - 1], b[..|b| - 1])) || Subsequence(a, b[..|b| - 1])))
  }

  lemma {:induction false} SubsequenceSelf<T>(a: seq<T>)
    ensures Subsequence(a, a)
  {
    if a != [] { SubsequenceSelf(a[..|a| - 1]); }
  }

  // Removing one element leaves a subsequence.
  lemma {:induction false} CutSubsequence<T>(a: seq<T>, k: nat)
    requires k < |a|
    ensures Subsequence(a[..k] + a[k + 1..], a)
    decreases |a|
  {
    var init, cut := a[..|a| - 1], a[..k] + a[k + 1..];
    if k == |a| - 1 {
      assert cut == init;
      SubsequenceSelf(init);
    } else {
      CutSubsequence(init, k);
      assert cut[..|cut| - 1] == init[..k] + init[k + 1..];
    }
  }

  lemma {:induction false} SubsequenceTrans<T>(a: seq<T>, b: seq<T>, c: seq<T>)
    requires Subsequence(a, b) && Subsequence(b, c)
    ensures Subsequence(a, c)
    decreases |b| + |c|
  {
    if a != [] && b != [] && c != [] {
      var b', c' := b[..|b| - 1], c[..|c| - 1];
      if b[|b| - 1] == c[|c| - 1] && Subsequence(b', c') {
        if a[|a| - 1] == b[|b| - 1] && Subsequence(a[..|a| - 1], b') {
          SubsequenceTrans(a[..|a| - 1], b', c');
        } else {
          SubsequenceTrans(a, b', c');
        }
      } else {
        SubsequenceTrans(a, b, c');
      }
    }
  }

  lemma {:induction false} SubsequenceAppend<T>(a: seq<T>, b: seq<T>, x: seq<T>)
    requires Subsequence(a, b)
    ensures Subsequence(a + x, b + x)
    decreases |x|
  {
    if x == [] {
      assert a + x == a && b + x == b;
    } else {
      var init := x[..|x| - 1];
      SubsequenceAppend(a, b, init);
      assert (a + x)[..|a + x| - 1] == a + init && (b + x)[..|b + x| - 1] == b + init;
    }
  }

  lemma {:induction false} SubsequencePrepend<T>(x: seq<T>, a: seq<T>, b: seq<T>)
    requires Subsequence(a, b)
    ensures Subsequence(x + a, x + b)
    decreases |b|
  {
    if b == [] || a == [] {
      assert a == [] ==> x + a == x;
      if a == [] {
        PrefixSubsequence(x, b);
      } else {
        SubsequenceSelf(x + a);
      }
    } else {
      var b' := b[..|b| - 1];
      assert (x + b)[..|x + b| - 1] == x + b' && (x + a)[..|x + a| - 1] == x + a[..|a| - 1];
      if a[|a| - 1] == b[|b| - 1] && Subsequence(a[..|a| - 1], b') {
        SubsequencePrepend(x, a[..|a| - 1], b');
      } else {
        SubsequencePrepend(x, a, b');
      }
    }
  }

  lemma {:induction false} PrefixSubsequence<T>(x: seq<T>, b: seq<T>)
    ensures Subsequence(x, x + b)
    decreases |b|
  {
    if b == [] {
      assert x + b == x;
      SubsequenceSelf(x);
    } else {
      assert (x + b)[..|x + b| - 1] == x + b[..|b| - 1];
      PrefixSubsequence(x, b[..|b| - 1]);
    }
  }
}
