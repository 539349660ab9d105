/** Generic sequence helpers shared by the views: an order-preserving filter,
    the JavaScript `slice(-k)` suffix, and the subsequence relation used to
    state "in original order". */
module Seqs {

  datatype Option<+T> = None | Some(value: T)

  /** `Array.prototype.filter`: keeps, in order, the elements satisfying `p`. */
  function Filter<T>(s: seq<T>, p: T -> bool): (r: seq<T>)
    ensures |r| <= |s|
    ensures forall i :: 0 <= i < |r| ==> r[i] in s && p(r[i])
    ensures forall i :: 0 <= i < |s| && p(s[i]) ==> s[i] in r
  {
    if s == [] then [] else (if p(s[0]) then [s[0]] else []) + Filter(s[1..], p)
  }

  /** `Array.prototype.map`. */
  function Map<T, U>(s: seq<T>, f: T -> U): (r: seq<U>)
    ensures |r| == |s|
    ensures forall i :: 0 <= i < |s| ==> r[i] == f(s[i])
  {
    seq(|s|, i requires 0 <= i < |s| => f(s[i]))
  }

  /** `s.slice(-k)` for k > 0: the last k elements, or all of them when fewer. */
  function Last<T>(s: seq<T>, k: nat): (r: seq<T>)
    ensures |r| == if |s| < k then |s| else k
    ensures r == s[|s| - |r|..]
  {
    if |s| <= k then s else s[|s| - k..]
  }

  lemma MapAppend<T, U>(s: seq<T>, x: T, f: T -> U)
    ensures Map(s + [x], f) == Map(s, f) + [f(x)]
  {
    assert forall i :: 0 <= i < |s| ==> (s + [x])[i] == s[i];
  }

  /** Taking the last elements commutes with mapping. */
  lemma LastMap<T, U>(s: seq<T>, k: nat, f: T -> U)
    ensures Last(Map(s, f), k) == Map(Last(s, k), f)
  {
    var a := Last(Map(s, f), k);
    var b := Map(Last(s, k), f);
    forall i | 0 <= i < |a| ensures a[i] == b[i] {
      assert a[i] == Map(s, f)[|s| - |a| + i];
    }
  }

  /** `a` can be obtained from `b` by deleting elements (order kept). */
  ghost predicate Subsequence<T>(a: seq<T>, b: seq<T>)
    decreases |b|
  {
    if a == [] then true
    else if b == [] then false
    else (a[0] == b[0] && Subsequence(a[1..], b[1..])) || Subsequence(a, b[1..])
  }

  ghost predicate AllSatisfy<T>(s: seq<T>, p: T -> bool)
  {
    forall i :: 0 <= i < |s| ==> p(s[i])
  }

  lemma {:induction false} FilterIsSubsequence<T>(s: seq<T>, p: T -> bool)
    ensures Subsequence(Filter(s, p), s)
  {
    if s != [] {
      FilterIsSubsequence(s[1..], p);
      var rest := Filter(s[1..], p);
      if p(s[0]) {
        assert Filter(s, p) == [s[0]] + rest;
        assert ([s[0]] + rest)[1..] == rest;
      } else {
        assert Filter(s, p) == rest;
      }
    }
  }

  /** Filtering with a predicate every element already satisfies changes nothing. */
  lemma {:induction false} FilterKeepsAll<T>(s: seq<T>, p: T -> bool)
    requires AllSatisfy(s, p)
    ensures Filter(s, p) == s
  {
    if s != [] {
      assert AllSatisfy(s[1..], p) by {
        forall i | 0 <= i < |s[1..]| ensures p(s[1..][i]) { assert s[1..][i] == s[i + 1]; }
      }
      FilterKeepsAll(s[1..], p);
      assert p(s[0]);
      assert [s[0]] + s[1..] == s;
    }
  }

  /** Filtering distributes over appending one element. */
  lemma {:induction false} FilterAppend<T>(s: seq<T>, x: T, p: T -> bool)
    ensures Filter(s + [x], p) == Filter(s, p) + (if p(x) then [x] else [])
  {
    if s == [] {
      assert [] + [x] == [x];
    } else {
      assert (s + [x])[0] == s[0] && (s + [x])[1..] == s[1..] + [x];
      FilterAppend(s[1..], x, p);
    }
  }

  /** Dropping a prefix of a subsequence keeps it a subsequence. */
  lemma {:induction false} SuffixOfSubsequence<T>(a: seq<T>, b: seq<T>, k: nat)
    requires Subsequence(a, b)
    requires k <= |a|
    ensures Subsequence(a[k..], b)
    decreases |b|
  {
    if k == 0 {
      assert a[k..] == a;
    } else if a[0] == b[0] && Subsequence(a[1..], b[1..]) {
      SuffixOfSubsequence(a[1..], b[1..], k - 1);
      assert a[1..][k - 1..] == a[k..];
    } else {
      SuffixOfSubsequence(a, b[1..], k);
    }
  }

  /** A pairwise property of `b` holds of any subsequence of `b`. */
  lemma {:induction false} SubsequencePairwise<T>(a: seq<T>, b: seq<T>, ok: (T, T) -> bool)
    requires Subsequence(a, b)
    requires forall i, j :: 0 <= i < j < |b| ==> ok(b[i], b[j])
    ensures forall i, j :: 0 <= i < j < |a| ==> ok(a[i], a[j])
    decreases |b|
  {
    if a != [] {
      assert forall i, j :: 0 <= i < j < |b[1..]| ==> ok(b[1..][i], b[1..][j]) by {
        forall i, j | 0 <= i < j < |b[1..]| ensures ok(b[1..][i], b[1..][j]) {
          assert b[1..][i] == b[i + 1] && b[1..][j] == b[j + 1];
        }
      }
      if a[0] == b[0] && Subsequence(a[1..], b[1..]) {
        SubsequencePairwise(a[1..], b[1..], ok);
        SubsequenceMembers(a[1..], b[1..]);
        forall i, j | 0 <= i < j < |a| ensures ok(a[i], a[j]) {
          if i == 0 {
            assert a[j] == a[1..][j - 1];
            var m :| 0 <= m < |b[1..]| && b[1..][m] == a[1..][j - 1];
            assert b[m + 1] == a[j];
          } else {
            assert a[i] == a[1..][i - 1] && a[j] == a[1..][j - 1];
          }
        }
      } else {
        SubsequencePairwise(a, b[1..], ok);
      }
    }
  }

  /** Every element of a subsequence occurs in the larger sequence. */
  lemma {:induction false} SubsequenceMembers<T>(a: seq<T>, b: seq<T>)
    requires Subsequence(a, b)
    ensures forall i :: 0 <= i < |a| ==> exists m :: 0 <= m < |b| && b[m] == a[i]
    decreases |b|
  {
    if a != [] {
      if a[0] == b[0] && Subsequence(a[1..], b[1..]) {
        SubsequenceMembers(a[1..], b[1..]);
        forall i | 0 <= i < |a| ensures exists m :: 0 <= m < |b| && b[m] == a[i] {
          if i == 0 {
            assert b[0] == a[0];
          } else {
            assert a[i] == a[1..][i - 1];
            var m :| 0 <= m < |b[1..]| && b[1..][m] == a[1..][i - 1];
            assert b[m + 1] == a[i];
          }
        }
      } else {
        SubsequenceMembers(a, b[1..]);
        forall i | 0 <= i < |a| ensures exists m :: 0 <= m < |b| && b[m] == a[i] {
          var m :| 0 <= m < |b[1..]| && b[1..][m] == a[i];
          assert b[m + 1] == a[i];
        }
      }
    }
  }
}
