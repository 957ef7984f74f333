/**
  The clean-up both searches apply to their result: drop repeated candidates,
  keeping first occurrences, then sort stably by output mode.
 */
module Ordering {
  import opened Clock
  import opened Seqs

  /** No element occurs twice. */
  predicate NoDup<T(==)>(s: seq<T>)
  {
    forall i, j :: 0 <= i < j < |s| ==> s[i] != s[j]
  }

  /** Modes never decrease along the sequence. */
  predicate ModeSorted(s: seq<Candidate>)
  {
    forall i, j :: 0 <= i < j < |s| ==> Rank(s[i].mode) <= Rank(s[j].mode)
  }

  /** A repeat-free sequence has a repeat-free tail that does not hold its head. */
  lemma NoDupTail<T>(s: seq<T>)
    requires NoDup(s) && |s| > 0
    ensures NoDup(s[1..]) && s[0] !in s[1..]
  {
    forall i, j | 0 <= i < j < |s[1..]| ensures s[1..][i] != s[1..][j] {
      assert s[1..][i] == s[i + 1] && s[1..][j] == s[j + 1];
    }
    forall k | 0 <= k < |s[1..]| ensures s[1..][k] != s[0] {
      assert s[1..][k] == s[k + 1];
    }
  }

  /** Two repeat-free sequences with no common element join into a repeat-free one. */
  lemma NoDupConcat<T>(a: seq<T>, b: seq<T>)
    requires NoDup(a) && NoDup(b)
    requires forall i, j :: 0 <= i < |a| && 0 <= j < |b| ==> a[i] != b[j]
    ensures NoDup(a + b)
  {
    var r := a + b;
    forall i, j | 0 <= i < j < |r| ensures r[i] != r[j] {
      if j < |a| {
        assert r[i] == a[i] && r[j] == a[j];
      } else if i >= |a| {
        assert r[i] == b[i - |a|] && r[j] == b[j - |a|];
      } else {
        assert r[i] == a[i] && r[j] == b[j - |a|];
      }
    }
  }

  /** A multiset of a non-empty sequence splits into its head and its tail. */
  lemma MultisetHead<T>(s: seq<T>)
    requires |s| > 0
    ensures multiset(s) == multiset{s[0]} + multiset(s[1..])
  {
    assert s == [s[0]] + s[1..];
  }

  /**
    Appends to `acc` every element of `s` not seen yet, in order: the
    `if i not in result: result.append(i)` loop, started from `acc`.
   */
  function DedupInto(acc: seq<Candidate>, s: seq<Candidate>): (r: seq<Candidate>)
    requires NoDup(acc)
    ensures NoDup(r)
    ensures forall x :: x in r <==> x in acc || x in s
    ensures |acc| <= |r| <= |acc| + |s| && r[..|acc|] == acc
    decreases |s|
  {
    if |s| == 0 then acc
    else if s[0] in acc then DedupInto(acc, s[1..])
    else DedupInto(acc + [s[0]], s[1..])
  }

  /** `x` occurs in `s`, and does so before any occurrence of `y`. */
  ghost predicate FirstBefore(s: seq<Candidate>, x: Candidate, y: Candidate)
  {
    exists p :: 0 <= p < |s| && s[p] == x && forall q :: 0 <= q <= p ==> s[q] != y
  }

  /** The elements of `r` come in the order of their first occurrences in `s`. */
  ghost predicate FirstOccurrenceOrder(r: seq<Candidate>, s: seq<Candidate>)
  {
    forall i, j :: 0 <= i < j < |r| ==> FirstBefore(s, r[i], r[j])
  }

  /** An earlier first occurrence stays earlier when more is appended. */
  lemma FirstBeforeExtend(s: seq<Candidate>, t: seq<Candidate>, x: Candidate, y: Candidate)
    requires FirstBefore(s, x, y)
    ensures FirstBefore(s + t, x, y)
  {
    var p :| 0 <= p < |s| && s[p] == x && forall q :: 0 <= q <= p ==> s[q] != y;
    assert (s + t)[p] == x;
    forall q | 0 <= q <= p ensures (s + t)[q] != y {
      assert (s + t)[q] == s[q];
    }
  }

  /**
    If `acc` holds the elements of `pre` in first-occurrence order, then
    appending the unseen elements of `s` keeps first-occurrence order in
    `pre + s`.
   */
  lemma {:induction false} DedupIntoOrder(pre: seq<Candidate>, acc: seq<Candidate>, s: seq<Candidate>)
    requires NoDup(acc)
    requires forall x :: x in acc <==> x in pre
    requires FirstOccurrenceOrder(acc, pre)
    ensures FirstOccurrenceOrder(DedupInto(acc, s), pre + s)
    decreases |s|
  {
    if |s| == 0 {
      assert pre + s == pre;
    } else {
      var x, t := s[0], s[1..];
      var pre' := pre + [x];
      assert pre' + t == pre + s;
      var acc' := if x in acc then acc else acc + [x];
      assert NoDup(acc') by {
        if x !in acc {
          NoDupConcat(acc, [x]);
        }
      }
      forall i, j | 0 <= i < j < |acc'| ensures FirstBefore(pre', acc'[i], acc'[j]) {
        if j < |acc| {
          FirstBeforeExtend(pre, [x], acc[i], acc[j]);
        } else {
          var y := acc[i];
          assert y in pre;
          var p :| 0 <= p < |pre| && pre[p] == y;
          assert pre'[p] == y;
          forall q | 0 <= q <= p ensures pre'[q] != x {
            assert pre'[q] == pre[q];
          }
        }
      }
      DedupIntoOrder(pre', acc', t);
    }
  }

  /** The first occurrence of every element, in order of appearance. */
  function Dedup(s: seq<Candidate>): (r: seq<Candidate>)
    ensures NoDup(r)
    ensures forall x :: x in r <==> x in s
    ensures |r| <= |s|
    ensures FirstOccurrenceOrder(r, s)
  {
    DedupIntoOrder([], [], s);
    assert [] + s == s;
    DedupInto([], s)
  }

  /** On input that has no repeats, with nothing in common with `acc`, nothing is dropped. */
  lemma {:induction false} DedupIntoDistinct(acc: seq<Candidate>, s: seq<Candidate>)
    requires NoDup(acc + s)
    ensures NoDup(acc)
    ensures DedupInto(acc, s) == acc + s
    decreases |s|
  {
    assert NoDup(acc) by {
      forall i, j | 0 <= i < j < |acc| ensures acc[i] != acc[j] {
        assert acc[i] == (acc + s)[i] && acc[j] == (acc + s)[j];
      }
    }
    if |s| > 0 {
      assert s[0] !in acc by {
        forall i | 0 <= i < |acc| ensures acc[i] != s[0] {
          assert acc[i] == (acc + s)[i] && s[0] == (acc + s)[|acc|];
        }
      }
      assert (acc + [s[0]]) + s[1..] == acc + s;
      DedupIntoDistinct(acc + [s[0]], s[1..]);
    }
  }

  /** De-duplication is the identity exactly on sequences without repeats. */
  lemma DedupIdentity(s: seq<Candidate>)
    ensures Dedup(s) == s <==> NoDup(s)
  {
    if NoDup(s) {
      assert [] + s == s;
      DedupIntoDistinct([], s);
    }
  }

  /** De-duplicating twice is the same as de-duplicating once. */
  lemma DedupIdempotent(s: seq<Candidate>)
    ensures Dedup(Dedup(s)) == Dedup(s)
  {
    DedupIdentity(Dedup(s));
  }

  /** A leading element repeated at once is dropped by de-duplication. */
  lemma DedupRepeatedHead(x: Candidate, t: seq<Candidate>)
    ensures Dedup([x, x] + t) == Dedup([x] + t)
  {
    var s := [x, x] + t;
    assert s[0] == x && s[1..] == [x] + t;
    assert ([x] + t)[0] == x && ([x] + t)[1..] == t;
    assert [] + [x] == [x];
    assert Dedup(s) == DedupInto([x], [x] + t);
    assert DedupInto([x], [x] + t) == DedupInto([x], t);
    assert Dedup([x] + t) == DedupInto([x], t);
  }

  /** The test "is on output `m`". */
  function ModeIs(m: Mode): Candidate -> bool
  {
    (c: Candidate) => c.mode == m
  }

  /** The elements of `s` on output `m`, in their original order. */
  function WithMode(s: seq<Candidate>, m: Mode): seq<Candidate>
  {
    Filter(s, ModeIs(m))
  }

  /** Selecting mode `m` keeps exactly the elements on output `m`. */
  lemma WithModeMembers(s: seq<Candidate>, m: Mode)
    ensures forall c :: c in WithMode(s, m) <==> c in s && c.mode == m
    ensures forall i :: 0 <= i < |WithMode(s, m)| ==> WithMode(s, m)[i].mode == m
    ensures |WithMode(s, m)| <= |s|
  {
    FilterMembers(s, ModeIs(m));
  }

  lemma WithModeConcat(a: seq<Candidate>, b: seq<Candidate>, m: Mode)
    ensures WithMode(a + b, m) == WithMode(a, m) + WithMode(b, m)
  {
    FilterConcat(a, b, ModeIs(m));
  }

  /** Selecting one mode keeps a sequence free of repeats. */
  lemma {:induction false} WithModeNoDup(s: seq<Candidate>, m: Mode)
    requires NoDup(s)
    ensures NoDup(WithMode(s, m))
    decreases |s|
  {
    if |s| > 0 {
      var x, t := s[0], s[1..];
      NoDupTail(s);
      WithModeNoDup(t, m);
      var rest := WithMode(t, m);
      if x.mode == m {
        WithModeMembers(t, m);
        assert x !in rest;
        NoDupConcat([x], rest);
      } else {
        assert WithMode(s, m) == rest;
      }
    }
  }

  /** The three selections of `s`, as multisets, added up. */
  ghost function ModeParts(s: seq<Candidate>): multiset<Candidate>
  {
    multiset(WithMode(s, Clk2x)) + multiset(WithMode(s, ClkDv)) + multiset(WithMode(s, ClkFx))
  }

  lemma ModePartsHead(s: seq<Candidate>)
    requires |s| > 0
    ensures ModeParts(s) == multiset{s[0]} + ModeParts(s[1..])
  {
    var x, t := s[0], s[1..];
    match x.mode
    case Clk2x =>
      assert WithMode(s, Clk2x) == [x] + WithMode(t, Clk2x);
    case ClkDv =>
      assert WithMode(s, ClkDv) == [x] + WithMode(t, ClkDv);
    case ClkFx =>
      assert WithMode(s, ClkFx) == [x] + WithMode(t, ClkFx);
  }

  /** Splitting by mode is a partition: the three selections together hold every element once. */
  lemma {:induction false} WithModePartition(s: seq<Candidate>)
    ensures ModeParts(s) == multiset(s)
    decreases |s|
  {
    if |s| > 0 {
      WithModePartition(s[1..]);
      ModePartsHead(s);
      MultisetHead(s);
    }
  }

  /** Selecting a mode no element has gives nothing. */
  lemma WithModeAbsent(s: seq<Candidate>, m: Mode)
    requires forall i :: 0 <= i < |s| ==> s[i].mode != m
    ensures WithMode(s, m) == []
  {
    FilterNone(s, ModeIs(m));
  }

  /**
    Python's stable `sort(key=itemgetter(1))` on candidates: all CLK2X
    entries, then all CLKDV, then all CLKFX, each group in its original order.
   */
  function SortByMode(s: seq<Candidate>): (r: seq<Candidate>)
    ensures ModeSorted(r)
    ensures forall x :: x in r <==> x in s
  {
    WithModeMembers(s, Clk2x);
    WithModeMembers(s, ClkDv);
    WithModeMembers(s, ClkFx);
    BlocksModeSorted(WithMode(s, Clk2x), WithMode(s, ClkDv), WithMode(s, ClkFx));
    WithMode(s, Clk2x) + WithMode(s, ClkDv) + WithMode(s, ClkFx)
  }

  /** Three blocks of the three modes in rank order are sorted by mode. */
  lemma BlocksModeSorted(a: seq<Candidate>, b: seq<Candidate>, c: seq<Candidate>)
    requires forall i :: 0 <= i < |a| ==> a[i].mode == Clk2x
    requires forall i :: 0 <= i < |b| ==> b[i].mode == ClkDv
    requires forall i :: 0 <= i < |c| ==> c[i].mode == ClkFx
    ensures ModeSorted(a + b + c)
  {
    var r := a + b + c;
    forall i | 0 <= i < |r|
      ensures Rank(r[i].mode) == if i < |a| then 0 else if i < |a| + |b| then 1 else 2
    {
      if i < |a| {
        assert r[i] == a[i];
      } else if i < |a| + |b| {
        assert r[i] == b[i - |a|];
      } else {
        assert r[i] == c[i - |a| - |b|];
      }
    }
  }

  /** Selecting a mode from the sorted sequence gives the same as selecting it from the input. */
  lemma SortByModeStable(s: seq<Candidate>, m: Mode)
    ensures WithMode(SortByMode(s), m) == WithMode(s, m)
  {
    var a, b, c := WithMode(s, Clk2x), WithMode(s, ClkDv), WithMode(s, ClkFx);
    WithModeMembers(s, Clk2x);
    WithModeMembers(s, ClkDv);
    WithModeMembers(s, ClkFx);
    WithModeConcat(a + b, c, m);
    WithModeConcat(a, b, m);
    match m
    case Clk2x =>
      WithModeOnly(a, m);
      WithModeAbsent(b, m);
      WithModeAbsent(c, m);
    case ClkDv =>
      WithModeAbsent(a, m);
      WithModeOnly(b, m);
      WithModeAbsent(c, m);
    case ClkFx =>
      WithModeAbsent(a, m);
      WithModeAbsent(b, m);
      WithModeOnly(c, m);
  }

  /**
    Sorting by mode gives a permutation of the input, ordered by mode, that
    keeps the relative order of the candidates of each mode (a stable sort).
   */
  lemma SortByModeCorrect(s: seq<Candidate>)
    ensures |SortByMode(s)| == |s|
    ensures multiset(SortByMode(s)) == multiset(s)
    ensures ModeSorted(SortByMode(s))
    ensures forall m :: WithMode(SortByMode(s), m) == WithMode(s, m)
  {
    WithModePartition(s);
    assert multiset(SortByMode(s)) == ModeParts(s);
    assert |SortByMode(s)| == |multiset(SortByMode(s))|;
    WithModeMembers(s, Clk2x);
    WithModeMembers(s, ClkDv);
    WithModeMembers(s, ClkFx);
    BlocksModeSorted(WithMode(s, Clk2x), WithMode(s, ClkDv), WithMode(s, ClkFx));
    forall m ensures WithMode(SortByMode(s), m) == WithMode(s, m) {
      SortByModeStable(s, m);
    }
  }

  /** Selecting the mode every element has changes nothing. */
  lemma WithModeOnly(s: seq<Candidate>, m: Mode)
    requires forall i :: 0 <= i < |s| ==> s[i].mode == m
    ensures WithMode(s, m) == s
  {
    FilterAll(s, ModeIs(m));
  }

  /** Sorting by mode keeps a sequence free of repeats. */
  lemma SortByModeNoDup(s: seq<Candidate>)
    requires NoDup(s)
    ensures NoDup(SortByMode(s))
  {
    var a, b, c := WithMode(s, Clk2x), WithMode(s, ClkDv), WithMode(s, ClkFx);
    WithModeNoDup(s, Clk2x);
    WithModeNoDup(s, ClkDv);
    WithModeNoDup(s, ClkFx);
    WithModeMembers(s, Clk2x);
    WithModeMembers(s, ClkDv);
    WithModeMembers(s, ClkFx);
    NoDupConcat(a, b);
    forall i, j | 0 <= i < |a + b| && 0 <= j < |c| ensures (a + b)[i] != c[j] {
      assert (a + b)[i].mode != ClkFx by {
        if i < |a| {
          assert (a + b)[i] == a[i];
        } else {
          assert (a + b)[i] == b[i - |a|];
        }
      }
    }
    NoDupConcat(a + b, c);
  }

  /** The tail of a mode-sorted sequence is mode-sorted and ranks no lower than the head. */
  lemma ModeSortedTail(s: seq<Candidate>)
    requires ModeSorted(s) && |s| > 0
    ensures ModeSorted(s[1..])
    ensures forall i :: 0 <= i < |s[1..]| ==> Rank(s[0].mode) <= Rank(s[1..][i].mode)
  {
    var t := s[1..];
    forall i, j | 0 <= i < j < |t| ensures Rank(t[i].mode) <= Rank(t[j].mode) {
      assert t[i] == s[i + 1] && t[j] == s[j + 1];
    }
    forall i | 0 <= i < |t| ensures Rank(s[0].mode) <= Rank(t[i].mode) {
      assert t[i] == s[i + 1];
    }
  }

  /** A sequence already sorted by mode is left as it is. */
  lemma {:induction false} SortByModeOfSorted(s: seq<Candidate>)
    requires ModeSorted(s)
    ensures SortByMode(s) == s
    decreases |s|
  {
    if |s| > 0 {
      var x, t := s[0], s[1..];
      ModeSortedTail(s);
      SortByModeOfSorted(t);
      var a, b, c := WithMode(t, Clk2x), WithMode(t, ClkDv), WithMode(t, ClkFx);
      assert t == a + b + c;
      assert s == [x] + t;
      match x.mode
      case Clk2x =>
        assert SortByMode(s) == [x] + a + b + c;
      case ClkDv =>
        WithModeAbsent(t, Clk2x);
        assert SortByMode(s) == a + ([x] + b) + c;
      case ClkFx =>
        WithModeAbsent(t, Clk2x);
        WithModeAbsent(t, ClkDv);
        assert SortByMode(s) == a + b + ([x] + c);
    }
  }

  /**
    SortByMode is the only stable sort by mode: any mode-sorted sequence that
    keeps the order within each mode of `s` is SortByMode(s).
   */
  lemma SortByModeUnique(s: seq<Candidate>, r: seq<Candidate>)
    requires ModeSorted(r)
    requires forall m :: WithMode(r, m) == WithMode(s, m)
    ensures r == SortByMode(s)
  {
    SortByModeOfSorted(r);
    assert WithMode(r, Clk2x) == WithMode(s, Clk2x);
    assert WithMode(r, ClkDv) == WithMode(s, ClkDv);
    assert WithMode(r, ClkFx) == WithMode(s, ClkFx);
  }

  /** The clean-up applied to every search result: de-duplicate, then sort by mode. */
  function Normalize(s: seq<Candidate>): (r: seq<Candidate>)
    ensures NoDup(r) && ModeSorted(r)
    ensures forall c :: c in r <==> c in s
    ensures |r| <= |s|
    ensures forall m :: WithMode(r, m) == WithMode(Dedup(s), m)
  {
    var d := Dedup(s);
    SortByModeNoDup(d);
    SortByModeCorrect(d);
    SortByMode(d)
  }

  /** A single candidate is its own clean-up. */
  lemma NormalizeSingle(c: Candidate)
    ensures Normalize([c]) == [c]
  {
    assert Dedup([c]) == [c];
  }

  /** Cleaning up a cleaned-up sequence changes nothing. */
  lemma NormalizeIdempotent(s: seq<Candidate>)
    ensures Normalize(Normalize(s)) == Normalize(s)
  {
    var r := Normalize(s);
    DedupIdentity(r);
    SortByModeOfSorted(r);
  }

  /** Selecting one mode keeps first-occurrence order. */
  lemma {:induction false} WithModeOrder(t: seq<Candidate>, s: seq<Candidate>, m: Mode)
    requires FirstOccurrenceOrder(t, s)
    ensures FirstOccurrenceOrder(WithMode(t, m), s)
    decreases |t|
  {
    if |t| > 0 {
      var u := t[1..];
      var rest := WithMode(u, m);
      forall i, j | 0 <= i < j < |u| ensures FirstBefore(s, u[i], u[j]) {
        assert u[i] == t[i + 1] && u[j] == t[j + 1];
      }
      WithModeOrder(u, s, m);
      if t[0].mode == m {
        var w := WithMode(t, m);
        assert w == [t[0]] + rest;
        WithModeMembers(u, m);
        forall i, j | 0 <= i < j < |w| ensures FirstBefore(s, w[i], w[j]) {
          if i == 0 {
            assert w[j] == rest[j - 1];
            var k :| 0 <= k < |u| && u[k] == w[j];
            assert t[k + 1] == w[j];
          } else {
            assert w[i] == rest[i - 1] && w[j] == rest[j - 1];
          }
        }
      } else {
        assert WithMode(t, m) == rest;
      }
    }
  }

  /**
    Within each mode, the cleaned-up list holds the candidates in the order of
    their first occurrences in the input.
   */
  lemma NormalizeOrder(s: seq<Candidate>, m: Mode)
    ensures FirstOccurrenceOrder(WithMode(Normalize(s), m), s)
  {
    WithModeOrder(Dedup(s), s, m);
  }
}
