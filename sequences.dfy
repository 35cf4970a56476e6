/** Order and distinctness of lists, shared by the checklists and the label check. */
module Sequences {

  /** `a` is `b` with some elements left out, the rest in the same order. */
  predicate IsSubsequence<T(==)>(a: seq<T>, b: seq<T>)
    decreases |b|
  {
    if |a| == 0 then true
    else if |b| == 0 then false
    else if a[0] == b[0] then IsSubsequence(a[1..], b[1..])
    else IsSubsequence(a, b[1..])
  }

  predicate Distinct<T(==)>(l: seq<T>)
  {
    forall i, j :: 0 <= i < j < |l| ==> l[i] != l[j]
  }

  /** One step of the subsequence test on two non-empty lists. */
  lemma SubsequenceStep<T>(a: seq<T>, b: seq<T>)
    requires |b| > 0
    requires |a| > 0 && a[0] == b[0] ==> IsSubsequence(a[1..], b[1..])
    requires !(|a| > 0 && a[0] == b[0]) ==> IsSubsequence(a, b[1..])
    ensures IsSubsequence(a, b)
  {
  }

  /** Appending to the longer list keeps a subsequence one. */
  lemma {:induction false} SubsequenceExtend<T>(a: seq<T>, b: seq<T>, x: T)
    requires IsSubsequence(a, b)
    ensures IsSubsequence(a, b + [x])
    decreases |b|
  {
    if |a| > 0 {
      assert (b + [x])[0] == b[0] && (b + [x])[1..] == b[1..] + [x];
      if a[0] == b[0] {
        SubsequenceExtend(a[1..], b[1..], x);
      } else {
        SubsequenceExtend(a, b[1..], x);
      }
    }
  }

  /** Appending the same element to both lists keeps a subsequence one. */
  lemma {:induction false} SubsequenceAppend<T>(a: seq<T>, b: seq<T>, x: T)
    requires IsSubsequence(a, b)
    ensures IsSubsequence(a + [x], b + [x])
    decreases |b|
  {
    if |a| == 0 {
      assert (a + [x]) == [x];
      if |b| > 0 {
        assert (b + [x])[1..] == b[1..] + [x];
        SubsequenceAppendEmpty(b[1..], x);
      }
    } else {
      assert (b + [x])[0] == b[0] && (b + [x])[1..] == b[1..] + [x];
      assert (a + [x])[0] == a[0] && (a + [x])[1..] == a[1..] + [x];
      if a[0] == b[0] {
        SubsequenceAppend(a[1..], b[1..], x);
      } else {
        SubsequenceAppend(a, b[1..], x);
      }
    }
  }

  /** `[x]` is a subsequence of any list ending in `x`. */
  lemma {:induction false} SubsequenceAppendEmpty<T>(b: seq<T>, x: T)
    ensures IsSubsequence([x], b + [x])
    decreases |b|
  {
    if |b| == 0 {
      assert [x][1..] == [];
    } else {
      assert (b + [x])[1..] == b[1..] + [x];
      if b[0] != x {
        SubsequenceAppendEmpty(b[1..], x);
      } else {
        assert [x][1..] == [];
      }
    }
  }

  /** Elements of `b` picked at increasing positions `idx`, in that order, form a subsequence of `b`. */
  lemma SubsequenceAt<T>(a: seq<T>, b: seq<T>, idx: seq<nat>)
    requires |idx| == |a|
    requires forall i :: 0 <= i < |idx| ==> idx[i] < |b| && a[i] == b[idx[i]]
    requires forall i :: 0 < i < |idx| ==> idx[i - 1] < idx[i]
    ensures IsSubsequence(a, b)
  {
    SubsequenceAtFrom(a, b, idx, 0);
    assert b[0..] == b;
  }

  /** `SubsequenceAt` for the part of `b` from position `lo` on, the positions all at least `lo`. */
  lemma {:induction false} SubsequenceAtFrom<T>(a: seq<T>, b: seq<T>, idx: seq<nat>, lo: nat)
    requires |idx| == |a| && lo <= |b|
    requires forall i :: 0 <= i < |idx| ==> lo <= idx[i] < |b| && a[i] == b[idx[i]]
    requires forall i :: 0 < i < |idx| ==> idx[i - 1] < idx[i]
    ensures IsSubsequence(a, b[lo..])
    decreases |b| - lo
  {
    if |a| > 0 {
      assert lo <= idx[0] < |b|;
      assert b[lo..][1..] == b[lo + 1..];
      forall i | 0 < i < |idx|
        ensures idx[0] < idx[i]
      {
        Rising(idx, 0, i);
      }
      if a[0] == b[lo] {
        SubsequenceAtFrom(a[1..], b, idx[1..], lo + 1);
      } else {
        SubsequenceAtFrom(a, b, idx, lo + 1);
      }
      SubsequenceStep(a, b[lo..]);
    }
  }

  /** Positions that rise step by step rise overall. */
  lemma {:induction false} Rising(idx: seq<nat>, i: nat, j: nat)
    requires forall k :: 0 < k < |idx| ==> idx[k - 1] < idx[k]
    requires i < j < |idx|
    ensures idx[i] < idx[j]
    decreases j - i
  {
    if i + 1 < j {
      Rising(idx, i + 1, j);
    }
  }
}
