/** Sequence vocabulary shared by the model: element sets, duplicate-free
    sequences, filtering, first-seen deduplication, Python slicing and
    concatenation of blocks. */
module Seqs {

  /** The set of elements of a sequence. */
  function Elems<T>(s: seq<T>): set<T>
  {
    set x | x in s
  }

  predicate Distinct<T(==)>(s: seq<T>)
  {
    forall i, j :: 0 <= i < j < |s| ==> s[i] != s[j]
  }

  /** The elements of `s` that are not in `xs`, in their original order. */
  function FilterOut<T(==,!new)>(s: seq<T>, xs: set<T>): (r: seq<T>)
  {
    if s == [] then [] else (if s[0] in xs then [] else [s[0]]) + FilterOut(s[1..], xs)
  }

  /** Filtering keeps exactly the elements outside `xs`, and never lengthens. */
  lemma {:induction false} FilterOutMembers<T(!new)>(s: seq<T>, xs: set<T>)
    ensures forall x :: x in FilterOut(s, xs) <==> x in s && x !in xs
    ensures |FilterOut(s, xs)| <= |s|
  {
    if s != [] {
      FilterOutMembers(s[1..], xs);
      assert s == [s[0]] + s[1..];
    }
  }

  lemma {:induction false} FilterOutAppend<T(!new)>(a: seq<T>, b: seq<T>, xs: set<T>)
    ensures FilterOut(a + b, xs) == FilterOut(a, xs) + FilterOut(b, xs)
  {
    if a != [] {
      assert (a + b)[1..] == a[1..] + b;
      FilterOutAppend(a[1..], b, xs);
    } else {
      assert a + b == b;
    }
  }

  /** Filtering a sequence with one more element in front. */
  lemma FilterOutCons<T(!new)>(x: T, s: seq<T>, xs: set<T>)
    ensures FilterOut([x] + s, xs) == (if x in xs then [] else [x]) + FilterOut(s, xs)
  {
    assert ([x] + s)[1..] == s;
  }

  /** Filtering a sequence extended by one element. */
  lemma FilterOutSnoc<T(!new)>(s: seq<T>, x: T, xs: set<T>)
    ensures FilterOut(s + [x], xs) == FilterOut(s, xs) + (if x in xs then [] else [x])
  {
    FilterOutAppend(s, [x], xs);
    assert [x][1..] == [];
  }

  lemma {:induction false} FilterOutTwice<T(!new)>(s: seq<T>, xs: set<T>, ys: set<T>)
    ensures FilterOut(FilterOut(s, xs), ys) == FilterOut(s, xs + ys)
  {
    if s != [] {
      FilterOutTwice(s[1..], xs, ys);
      FilterOutAppend(if s[0] in xs then [] else [s[0]], FilterOut(s[1..], xs), ys);
    }
  }

  lemma {:induction false} FilterOutNothing<T(!new)>(s: seq<T>, xs: set<T>)
    requires forall x :: x in s ==> x !in xs
    ensures FilterOut(s, xs) == s
  {
    if s != [] {
      FilterOutNothing(s[1..], xs);
    }
  }

  lemma {:induction false} FilterOutDistinct<T(!new)>(s: seq<T>, xs: set<T>)
    requires Distinct(s)
    ensures Distinct(FilterOut(s, xs))
  {
    if s != [] {
      FilterOutDistinct(s[1..], xs);
      FilterOutMembers(s[1..], xs);
      forall k | 0 <= k < |s[1..]| ensures s[1..][k] != s[0] {
        assert s[1..][k] == s[k + 1];
      }
      DistinctAppend(if s[0] in xs then [] else [s[0]], FilterOut(s[1..], xs));
    }
  }

  /** Two duplicate-free sequences with no common element concatenate to a
      duplicate-free sequence, and conversely. */
  lemma DistinctAppend<T>(a: seq<T>, b: seq<T>)
    ensures Distinct(a + b) <==> Distinct(a) && Distinct(b) && Elems(a) !! Elems(b)
  {
    if Distinct(a) && Distinct(b) && Elems(a) !! Elems(b) {
      forall i, j | 0 <= i < j < |a + b| ensures (a + b)[i] != (a + b)[j] {
        if j >= |a| && i < |a| {
          assert (a + b)[i] in Elems(a) && (a + b)[j] in Elems(b);
        }
      }
    }
    if Distinct(a + b) {
      forall i, j | 0 <= i < |a| && 0 <= j < |b| ensures a[i] != b[j] {
        assert (a + b)[i] == a[i] && (a + b)[|a| + j] == b[j];
      }
      forall i, j | 0 <= i < j < |b| ensures b[i] != b[j] {
        assert (a + b)[|a| + i] == b[i] && (a + b)[|a| + j] == b[j];
      }
      forall i, j | 0 <= i < j < |a| ensures a[i] != a[j] {
        assert (a + b)[i] == a[i] && (a + b)[j] == a[j];
      }
    }
  }

  /** Moving the elements of `a` to the back of `o` and then those of `b`
      is the same as moving, in one go, the elements of `a` (less those of
      `b`) followed by those of `b`. */
  lemma {:induction false} FilterOutCompose<T(!new)>(o: seq<T>, a: seq<T>, b: seq<T>)
    ensures var c := FilterOut(a, Elems(b)) + b;
            FilterOut(FilterOut(o, Elems(a)) + a, Elems(b)) + b == FilterOut(o, Elems(c)) + c
  {
    var ea, eb := Elems(a), Elems(b);
    var c := FilterOut(a, eb) + b;
    FilterOutAppend(FilterOut(o, ea), a, eb);
    FilterOutTwice(o, ea, eb);
    FilterOutMembers(a, eb);
    forall x ensures x in Elems(c) <==> x in ea + eb {
      assert x in c <==> x in FilterOut(a, eb) || x in b;
    }
    assert Elems(c) == ea + eb;
  }

  /** Index of the first occurrence of `x` in `s`. */
  function FirstIndex<T(==)>(s: seq<T>, x: T): (k: nat)
    requires x in s
    ensures k < |s| && s[k] == x
    ensures forall i :: 0 <= i < k ==> s[i] != x
  {
    var n := |s| - 1;
    if x in s[..n] then FirstIndex(s[..n], x) else n
  }

  /** The elements of `s` without repeats, each at the place of its first
      occurrence: what appending `x` only when `x not in result` builds. */
  function Dedup<T(==,!new)>(s: seq<T>): (r: seq<T>)
    ensures Distinct(r)
    ensures forall x :: x in r <==> x in s
  {
    if s == [] then []
    else
      var d := Dedup(s[..|s| - 1]);
      var x := s[|s| - 1];
      if x in d then d
      else
        assert forall y :: y in d ==> y in s[..|s| - 1];
        DistinctAppend(d, [x]);
        d + [x]
  }

  /** Dedup keeps first-seen order: an element precedes another in the
      result exactly when its first occurrence in the input comes first. */
  lemma {:induction false} DedupFirstSeen<T(!new)>(s: seq<T>, i: nat, j: nat)
    requires i < j < |Dedup(s)|
    ensures FirstIndex(s, Dedup(s)[i]) < FirstIndex(s, Dedup(s)[j])
  {
    var n := |s| - 1;
    var p := s[..n];
    var d := Dedup(p);
    var x := s[n];
    assert forall y :: y in p ==> FirstIndex(s, y) == FirstIndex(p, y) by {
      forall y | y in p ensures FirstIndex(s, y) == FirstIndex(p, y) {
        assert s[..n] == p;
      }
    }
    if x in d {
      DedupFirstSeen(p, i, j);
    } else if j < |d| {
      DedupFirstSeen(p, i, j);
    } else {
      assert Dedup(s)[j] == x && x !in p;
      assert Dedup(s)[i] == d[i] && d[i] in p;
    }
  }

  /** Dedup keeps every element where it is first seen. */
  lemma DedupInFirstSeenOrder<T(!new)>(s: seq<T>)
    ensures forall i, j :: 0 <= i < j < |Dedup(s)| ==> FirstIndex(s, Dedup(s)[i]) < FirstIndex(s, Dedup(s)[j])
  {
    forall i, j | 0 <= i < j < |Dedup(s)|
      ensures FirstIndex(s, Dedup(s)[i]) < FirstIndex(s, Dedup(s)[j])
    {
      DedupFirstSeen(s, i, j);
    }
  }

  /** Dedup leaves a duplicate-free sequence as it is. */
  lemma {:induction false} DedupOfDistinct<T(!new)>(s: seq<T>)
    requires Distinct(s)
    ensures Dedup(s) == s
  {
    if s != [] {
      var n := |s| - 1;
      assert Distinct(s[..n]);
      DedupOfDistinct(s[..n]);
      assert s[n] !in s[..n];
      assert s[..n] + [s[n]] == s;
    }
  }

  /** A duplicate-free sequence holds each of its elements exactly once. */
  lemma {:induction false} DistinctCount<T>(s: seq<T>, x: T)
    requires Distinct(s)
    ensures multiset(s)[x] == if x in s then 1 else 0
  {
    if s != [] {
      var n := |s| - 1;
      assert s == s[..n] + [s[n]];
      assert Distinct(s[..n]);
      DistinctCount(s[..n], x);
      assert s[n] !in s[..n];
      assert x in s <==> x in s[..n] || x == s[n];
    }
  }

  /** Two duplicate-free sequences with the same elements are permutations
      of each other. */
  lemma DistinctPermutation<T>(a: seq<T>, b: seq<T>)
    requires Distinct(a) && Distinct(b) && Elems(a) == Elems(b)
    ensures multiset(a) == multiset(b)
  {
    forall x ensures multiset(a)[x] == multiset(b)[x] {
      DistinctCount(a, x);
      DistinctCount(b, x);
      assert x in a <==> x in Elems(a);
      assert x in b <==> x in Elems(b);
    }
  }

  /** Python's `s[lo:hi]` for non-negative bounds: both ends are clamped to
      the length, and an empty slice results when `hi <= lo`. */
  function PySlice<T>(s: seq<T>, lo: int, hi: int): (r: seq<T>)
    requires 0 <= lo && 0 <= hi
    ensures lo <= hi <= |s| ==> r == s[lo..hi]
    ensures |r| == if lo < hi && lo < |s| then (if hi <= |s| then hi else |s|) - lo else 0
  {
    if hi <= lo || |s| <= lo then [] else s[lo..if hi <= |s| then hi else |s|]
  }

  /** The slices of a sequence of four. */
  lemma FourSlices<T>(s: seq<T>)
    requires |s| == 4
    ensures s[0..1] == [s[0]] && s[1..3] == [s[1], s[2]] && s[2..4] == [s[2], s[3]] && s[3..4] == [s[3]]
    ensures s == [s[0], s[1], s[2], s[3]]
  {
  }

  /** Two adjacent slices, or an empty block and a slice, join into one slice. */
  lemma JoinSlices<T>(s: seq<T>, x: seq<T>, y: seq<T>, a: nat, b: nat, c: nat)
    requires a <= b <= c <= |s| && y == s[b..c]
    requires x == s[a..b] || (x == [] && a == b)
    ensures x + y == s[a..c]
  {
  }

  lemma SliceSplit<T>(s: seq<T>, a: nat, b: nat, c: nat)
    requires a <= b <= c <= |s|
    ensures s[a..b] + s[b..c] == s[a..c]
  {
  }

  /** The blocks joined one after the other (`list.extend` in a loop). */
  function Concat<T>(blocks: seq<seq<T>>): seq<T>
  {
    if blocks == [] then [] else Concat(blocks[..|blocks| - 1]) + blocks[|blocks| - 1]
  }

  lemma {:induction false} ConcatAppend<T>(a: seq<seq<T>>, b: seq<seq<T>>)
    ensures Concat(a + b) == Concat(a) + Concat(b)
  {
    if b == [] {
      assert a + b == a;
    } else {
      var n := |b| - 1;
      var ab := a + b;
      assert ab[..|ab| - 1] == a + b[..n] && ab[|ab| - 1] == b[n];
      assert Concat(ab) == Concat(a + b[..n]) + b[n];
      ConcatAppend(a, b[..n]);
      assert Concat(b) == Concat(b[..n]) + b[n];
    }
  }

  /** Appending block `i` to what the first `i` blocks built. */
  lemma ExtendStep<T>(start: seq<T>, blocks: seq<seq<T>>, i: nat)
    requires i < |blocks|
    ensures start + Concat(blocks[..i]) + blocks[i] == start + Concat(blocks[..i + 1])
  {
    assert blocks[..i + 1][..i] == blocks[..i];
  }

  lemma SplitAt<T>(s: seq<T>, k: nat)
    requires k < |s|
    ensures s == s[..k] + [s[k]] + s[k + 1..]
  {
    assert s[..k] + [s[k]] == s[..k + 1];
  }

  /** Reordering the blocks reorders their elements. */
  lemma {:induction false} ConcatPermutation<T>(a: seq<seq<T>>, b: seq<seq<T>>)
    requires multiset(a) == multiset(b)
    ensures multiset(Concat(a)) == multiset(Concat(b))
    ensures |Concat(a)| == |Concat(b)|
    decreases |a|
  {
    if a == [] {
      assert |b| == |multiset(b)| == 0;
    } else {
      var n := |a| - 1;
      var x := a[n];
      assert x in multiset(b) by {
        assert a == a[..n] + [x];
      }
      var k :| 0 <= k < |b| && b[k] == x;
      var rest := b[..k] + b[k + 1..];
      RemoveMatching(a, b, k);
      ConcatPermutation(a[..n], rest);
      ConcatAround(b, k);
      assert Concat(a) == Concat(a[..n]) + x;
      InsertBlock(Concat(b[..k]), x, Concat(b[k + 1..]));
    }
  }

  /** Taking the last element of `a` and an element equal to it out of `b`
      leaves two permutations of each other. */
  lemma RemoveMatching<T>(a: seq<T>, b: seq<T>, k: nat)
    requires multiset(a) == multiset(b) && a != [] && k < |b| && b[k] == a[|a| - 1]
    ensures multiset(a[..|a| - 1]) == multiset(b[..k] + b[k + 1..])
  {
    var n := |a| - 1;
    assert a == a[..n] + [a[n]];
    SplitAt(b, k);
    assert multiset(a[..n]) == multiset(a) - multiset([a[n]]);
  }

  /** Concat around the block at index `k`. */
  lemma ConcatAround<T>(b: seq<seq<T>>, k: nat)
    requires k < |b|
    ensures Concat(b) == Concat(b[..k]) + b[k] + Concat(b[k + 1..])
    ensures Concat(b[..k] + b[k + 1..]) == Concat(b[..k]) + Concat(b[k + 1..])
  {
    var front, back := b[..k], b[k + 1..];
    ConcatAppend(front, back);
    SplitAt(b, k);
    ConcatAppend(front + [b[k]], back);
    ConcatAppend(front, [b[k]]);
    assert Concat([b[k]]) == Concat([]) + b[k];
  }

  lemma InsertBlock<T>(front: seq<T>, x: seq<T>, back: seq<T>)
    ensures multiset(front + x + back) == multiset(front + back) + multiset(x)
    ensures |front + x + back| == |front + back| + |x|
  {
  }
}
