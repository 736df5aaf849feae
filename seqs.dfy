/** `Array.prototype.filter` over sequences, and what it means for the result to be
    the subsequence of the input picked out by a predicate. */
module Seqs {

  /** `s.filter(p)`: the elements of `s` that satisfy `p`, in their original order.
      Defined from the back so that appending to `s` extends the result. */
  function Filter<T(==)>(s: seq<T>, p: T -> bool): (r: seq<T>)
    ensures |r| <= |s|
    decreases |s|
  {
    if s == [] then []
    else Filter(s[..|s| - 1], p) + (if p(s[|s| - 1]) then [s[|s| - 1]] else [])
  }

  /** An element is kept exactly when it is in the input and passes `p`. */
  lemma {:induction false} FilterMembers<T>(s: seq<T>, p: T -> bool)
    ensures forall i :: 0 <= i < |Filter(s, p)| ==> Filter(s, p)[i] in s && p(Filter(s, p)[i])
    ensures forall i :: 0 <= i < |s| && p(s[i]) ==> s[i] in Filter(s, p)
    decreases |s|
  {
    if s != [] {
      var init := s[..|s| - 1];
      FilterMembers(init, p);
      assert s == init + [s[|s| - 1]];
    }
  }

  /** The positions in `s` that `Filter(s, p)` keeps, in increasing order. */
  ghost function FilterIndices<T>(s: seq<T>, p: T -> bool): seq<nat>
    decreases |s|
  {
    if s == [] then []
    else FilterIndices(s[..|s| - 1], p) + (if p(s[|s| - 1]) then [|s| - 1] else [])
  }

  /** `r` is the subsequence of `s` at the strictly increasing positions `idx`. */
  ghost predicate SubsequenceAt<T>(r: seq<T>, s: seq<T>, idx: seq<nat>) {
    && |idx| == |r|
    && (forall j :: 0 <= j < |idx| ==> idx[j] < |s| && r[j] == s[idx[j]])
    && (forall j, k :: 0 <= j < k < |idx| ==> idx[j] < idx[k])
  }

  /** `r` is `s` with some elements removed and the rest in their original order. */
  ghost predicate IsSubsequence<T>(r: seq<T>, s: seq<T>) {
    exists idx :: SubsequenceAt(r, s, idx)
  }

  /** The filter keeps exactly the positions whose element satisfies `p`, in order:
      a complete characterisation of `Filter`. */
  lemma {:induction false} FilterSelects<T>(s: seq<T>, p: T -> bool)
    ensures SubsequenceAt(Filter(s, p), s, FilterIndices(s, p))
    ensures forall i :: 0 <= i < |s| ==> (i in FilterIndices(s, p) <==> p(s[i]))
    decreases |s|
  {
    if s != [] {
      var init := s[..|s| - 1];
      FilterSelects(init, p);
      var idx0 := FilterIndices(init, p);
      forall i | 0 <= i < |s|
        ensures i in FilterIndices(s, p) <==> p(s[i])
      {
        if i < |init| {
          assert s[i] == init[i];
        }
      }
    }
  }

  lemma FilterIsSubsequence<T>(s: seq<T>, p: T -> bool)
    ensures IsSubsequence(Filter(s, p), s)
  {
    FilterSelects(s, p);
  }

  /** Filtering distributes over concatenation: the order of the input is kept. */
  lemma {:induction false} FilterAppend<T>(a: seq<T>, b: seq<T>, p: T -> bool)
    ensures Filter(a + b, p) == Filter(a, p) + Filter(b, p)
    decreases |b|
  {
    if b != [] {
      var binit := b[..|b| - 1];
      assert (a + b)[..|a + b| - 1] == a + binit;
      FilterAppend(a, binit, p);
    } else {
      assert a + b == a;
    }
  }

  lemma FilterSingleton<T>(x: T, p: T -> bool)
    ensures Filter([x], p) == if p(x) then [x] else []
  {
    assert [x][..0] == [];
  }

  /** A filter that every element passes returns its input. */
  lemma {:induction false} FilterKeepsAll<T>(s: seq<T>, p: T -> bool)
    requires forall i :: 0 <= i < |s| ==> p(s[i])
    ensures Filter(s, p) == s
    decreases |s|
  {
    if s != [] {
      var init := s[..|s| - 1];
      FilterKeepsAll(init, p);
      assert s == init + [s[|s| - 1]];
    }
  }

  /** A filter that no element passes returns the empty sequence. */
  lemma FilterDropsAll<T>(s: seq<T>, p: T -> bool)
    requires forall i :: 0 <= i < |s| ==> !p(s[i])
    ensures Filter(s, p) == []
  {
  }

  /** Filtering twice with the same predicate is filtering once. */
  lemma FilterIdempotent<T>(s: seq<T>, p: T -> bool)
    ensures Filter(Filter(s, p), p) == Filter(s, p)
  {
    FilterMembers(s, p);
    FilterKeepsAll(Filter(s, p), p);
  }

  /** `s.slice(0, n)` */
  function Take<T>(s: seq<T>, n: nat): (r: seq<T>)
    ensures |r| == if n < |s| then n else |s|
    ensures r <= s
  {
    if n < |s| then s[..n] else s
  }
}
