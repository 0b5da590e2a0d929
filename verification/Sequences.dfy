/** Sequences: ways to cut and regroup them, and subsequences looked at from the right end, as the loops
    build them. */
module Sequences {

  lemma {:induction false} AtEnd<T>(s: seq<T>, x: T)
    requires s != []
    ensures x in s <==> x in s[..|s| - 1] || x == s[|s| - 1]
  {
    assert s == s[..|s| - 1] + [s[|s| - 1]];
  }

  // ---- regrouping ------------------------------------------------------------------------------------

  lemma {:induction false} Assoc<T>(a: seq<T>, b: seq<T>, c: seq<T>)
    ensures (a + b) + c == a + (b + c)
  {
  }

  lemma {:induction false} InOneGo<T>(a: seq<T>, b: seq<T>, c: seq<T>)
    ensures a + b + [] + c == a + (b + c)
  {
  }

  lemma {:induction false} InFive<T>(a: seq<T>, b: seq<T>, c: seq<T>, d: seq<T>, e: seq<T>)
    ensures a + b + c + d + e == a + (b + (c + (d + e)))
  {
  }

  lemma {:induction false} Regroup<T>(a: seq<T>, b: seq<T>, c: seq<T>, d: seq<T>, f: seq<T>)
    ensures (a + b) + (c + (d + f)) == a + ((b + (c + d)) + f)
    ensures c == [] ==> (a + b) + (d + f) == a + ((b + d) + f)
    ensures c == [] && d == [] ==> (a + b) + f == a + (b + f)
  {
  }

  // ---- cutting -----------------------------------------------------------------------------------------

  lemma {:induction false} SplitAt<T>(s: seq<T>, k: nat)
    requires k < |s|
    ensures s == s[..k] + [s[k]] + s[k + 1..]
  {
  }

  lemma {:induction false} InThree<T>(s: seq<T>, i: nat, j: nat)
    requires i <= j <= |s|
    ensures s == s[..i] + (s[i..][..j - i] + s[i..][j - i..])
  {
  }

  lemma {:induction false} ThreeParts<T>(a: seq<T>, w: seq<T>, i: nat, n: nat)
    requires i <= n <= |w|
    ensures a + w[i..n] + w[n..] == a + w[i..] && w[..n] + w[n..] == w
  {
  }

  lemma {:induction false} OneFurther<T>(a: seq<T>, w: seq<T>, i: nat, n: nat)
    requires i <= n < |w|
    ensures w[..n + 1] == w[..n] + [w[n]] && a + w[i..n + 1] == a + w[i..n] + [w[n]]
    ensures a + [w[n]] + w[n + 1..n + 1] == a + w[n..n] + [w[n]] && a + w[n + 1..n + 1] == a + w[n..n]
  {
  }

  lemma {:induction false} StartsFurther<T>(front: seq<T>, x: T, all: seq<T>)
    requires front <= all && |all| > |front| && all[|front|] == x
    ensures front + [x] <= all
  {
  }

  // ---- subsequences --------------------------------------------------------------------------------------

  /** `s` with some elements left out. */
  ghost predicate Subsequence<T>(s: seq<T>, all: seq<T>) {
    if all == [] then s == []
    else
      || Subsequence(s, all[..|all| - 1])
      || (s != [] && s[|s| - 1] == all[|all| - 1] && Subsequence(s[..|s| - 1], all[..|all| - 1]))
  }

  lemma {:induction false} SubsequenceSelf<T>(s: seq<T>)
    ensures Subsequence(s, s)
  {
    if s != [] {
      SubsequenceSelf(s[..|s| - 1]);
    }
  }

  lemma {:induction false} SubsequenceTransitive<T>(a: seq<T>, b: seq<T>, c: seq<T>)
    requires Subsequence(a, b) && Subsequence(b, c)
    ensures Subsequence(a, c)
    decreases |c|
  {
    if c != [] {
      var rest := c[..|c| - 1];
      if Subsequence(b, rest) {
        SubsequenceTransitive(a, b, rest);
      } else if Subsequence(a, b[..|b| - 1]) {
        SubsequenceTransitive(a, b[..|b| - 1], rest);
      } else {
        SubsequenceTransitive(a[..|a| - 1], b[..|b| - 1], rest);
      }
    }
  }

  lemma {:induction false} OneMoreSubsequence<T>(s: seq<T>, all: seq<T>)
    requires all != [] && Subsequence(s, all[..|all| - 1])
    ensures Subsequence(s, all) && Subsequence(s + [all[|all| - 1]], all)
  {
    assert (s + [all[|all| - 1]])[..|s|] == s;
  }

  /** Kept elements in front of a kept tail. */
  lemma {:induction false} SubsequenceAppend<T>(a: seq<T>, b: seq<T>, c: seq<T>, d: seq<T>)
    requires Subsequence(a, c) && Subsequence(b, d)
    ensures Subsequence(a + b, c + d)
    decreases |d|
  {
    if d == [] {
      assert a + b == a && c + d == c;
    } else {
      var n := |d| - 1;
      assert (c + d)[..|c + d| - 1] == c + d[..n];
      if Subsequence(b, d[..n]) {
        SubsequenceAppend(a, b, c, d[..n]);
      } else {
        SubsequenceAppend(a, b[..|b| - 1], c, d[..n]);
        assert (a + b)[..|a + b| - 1] == a + b[..|b| - 1];
      }
    }
  }

  lemma {:induction false} PrefixIsSubsequence<T>(s: seq<T>, k: nat)
    requires k <= |s|
    ensures Subsequence(s[..k], s)
    decreases |s|
  {
    if k == |s| {
      assert s[..k] == s;
      SubsequenceSelf(s);
    } else {
      assert s[..|s| - 1][..k] == s[..k];
      PrefixIsSubsequence(s[..|s| - 1], k);
    }
  }
}
