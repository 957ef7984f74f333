/** Concatenation of a sequence of blocks, and where each block lands when all have one length. */
module Seqs {

  /** The blocks of `ss` one after another, as repeated `extend` builds them. */
  function Flatten<T>(ss: seq<seq<T>>): seq<T>
  {
    if |ss| == 0 then [] else ss[0] + Flatten(ss[1..])
  }

  ghost predicate Uniform<T>(ss: seq<seq<T>>, n: nat)
  {
    forall i :: 0 <= i < |ss| ==> |ss[i]| == n
  }

  lemma {:induction false} FlattenLength<T>(ss: seq<seq<T>>, n: nat)
    requires Uniform(ss, n)
    ensures |Flatten(ss)| == |ss| * n
  {
    if |ss| > 0 {
      FlattenLength(ss[1..], n);
    }
  }

  /** With blocks of length `n`, element `j` of block `i` sits at `i * n + j`. */
  lemma {:induction false} FlattenAt<T>(ss: seq<seq<T>>, n: nat, i: int, j: int)
    requires Uniform(ss, n)
    requires 0 <= i < |ss| && 0 <= j < n
    ensures |Flatten(ss)| == |ss| * n
    ensures 0 <= i * n + j < |ss| * n
    ensures Flatten(ss)[i * n + j] == ss[i][j]
  {
    FlattenLength(ss, n);
    if i > 0 {
      FlattenAt(ss[1..], n, i - 1, j);
      assert i * n + j == n + ((i - 1) * n + j);
    }
  }

  /** With blocks of length `n`, block `i` is the slice from `i * n` to `(i + 1) * n`. */
  lemma {:induction false} FlattenBlock<T>(ss: seq<seq<T>>, n: nat, i: int)
    requires Uniform(ss, n)
    requires 0 <= i < |ss|
    ensures |Flatten(ss)| == |ss| * n
    ensures 0 <= i * n <= (i + 1) * n <= |ss| * n
    ensures Flatten(ss)[i * n .. (i + 1) * n] == ss[i]
  {
    FlattenLength(ss, n);
    var rest := Flatten(ss[1..]);
    assert Flatten(ss) == ss[0] + rest;
    if i > 0 {
      FlattenBlock(ss[1..], n, i - 1);
      assert i * n == n + (i - 1) * n;
      assert (i + 1) * n == n + i * n;
      assert |ss| * n == n + (|ss| - 1) * n;
      assert Flatten(ss)[i * n .. (i + 1) * n] == rest[(i - 1) * n .. i * n];
    } else {
      assert |ss| * n == n + (|ss| - 1) * n;
    }
  }

  /** An element of the flattening comes from one of the blocks. */
  lemma {:induction false} FlattenMember<T>(ss: seq<seq<T>>, x: T)
    requires x in Flatten(ss)
    ensures exists i :: 0 <= i < |ss| && x in ss[i]
  {
    if x !in ss[0] {
      FlattenMember(ss[1..], x);
      var i :| 0 <= i < |ss[1..]| && x in ss[1..][i];
      assert x in ss[i + 1];
    }
  }

  /** A slice past the end of the first part of a concatenation is a slice of the second part. */
  lemma SliceAfter<T>(a: seq<T>, b: seq<T>, i: int, j: int)
    requires 0 <= i <= j <= |b|
    ensures (a + b)[|a| + i .. |a| + j] == b[i..j]
  {
    forall k | 0 <= k < j - i ensures (a + b)[|a| + i .. |a| + j][k] == b[i..j][k] {
      assert (a + b)[|a| + i + k] == b[i + k];
    }
  }

  /** The elements of `s` that satisfy `p`, in order. */
  function Filter<T>(s: seq<T>, p: T -> bool): seq<T>
  {
    if |s| == 0 then []
    else (if p(s[0]) then [s[0]] else []) + Filter(s[1..], p)
  }

  /** Filter keeps exactly the elements that satisfy `p`. */
  lemma {:induction false} FilterMembers<T>(s: seq<T>, p: T -> bool)
    ensures forall x :: x in Filter(s, p) <==> x in s && p(x)
    ensures forall i :: 0 <= i < |Filter(s, p)| ==> p(Filter(s, p)[i])
    ensures |Filter(s, p)| <= |s|
    decreases |s|
  {
    if |s| > 0 {
      FilterMembers(s[1..], p);
      assert s == [s[0]] + s[1..];
    }
  }

  lemma {:induction false} FilterConcat<T>(a: seq<T>, b: seq<T>, p: T -> bool)
    ensures Filter(a + b, p) == Filter(a, p) + Filter(b, p)
    decreases |a|
  {
    if |a| == 0 {
      assert a + b == b;
    } else {
      var ab := a + b;
      assert ab[0] == a[0] && ab[1..] == a[1..] + b;
      FilterConcat(a[1..], b, p);
      var head := if p(a[0]) then [a[0]] else [];
      assert Filter(ab, p) == head + Filter(a[1..] + b, p);
      assert Filter(a, p) == head + Filter(a[1..], p);
    }
  }

  lemma {:induction false} FilterAll<T>(s: seq<T>, p: T -> bool)
    requires forall k :: 0 <= k < |s| ==> p(s[k])
    ensures Filter(s, p) == s
    decreases |s|
  {
    if |s| > 0 {
      FilterAll(s[1..], p);
      assert s == [s[0]] + s[1..];
    }
  }

  lemma {:induction false} FilterNone<T>(s: seq<T>, p: T -> bool)
    requires forall k :: 0 <= k < |s| ==> !p(s[k])
    ensures Filter(s, p) == []
    decreases |s|
  {
    if |s| > 0 {
      FilterNone(s[1..], p);
    }
  }

  /** When the elements satisfying `p` are exactly those of one slice, the filter is that slice. */
  lemma {:induction false} FilterSlice<T>(s: seq<T>, p: T -> bool, a: int, e: int)
    requires 0 <= a <= e <= |s|
    requires forall k :: 0 <= k < |s| ==> (p(s[k]) <==> a <= k < e)
    ensures Filter(s, p) == s[a..e]
    decreases |s|
  {
    if e == 0 {
      FilterNone(s, p);
    } else {
      var t := s[1..];
      forall k | 0 <= k < |t| ensures p(t[k]) <==> a - 1 <= k < e - 1 {
        assert t[k] == s[k + 1];
      }
      if a > 0 {
        FilterSlice(t, p, a - 1, e - 1);
        assert t[a - 1 .. e - 1] == s[a..e];
      } else {
        FilterSlice(t, p, 0, e - 1);
        assert s[a..e] == [s[0]] + t[0 .. e - 1];
      }
    }
  }
}
