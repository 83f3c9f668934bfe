/** Sequence operations shared by the table-shaped parts of the model
    (pandas melt, numpy reshape, boolean-mask filtering, drop_duplicates). */
module Seqs {

  /** `a` is `b` with some elements left out and the rest in their original order. */
  ghost predicate IsSubsequence<T>(a: seq<T>, b: seq<T>)
    decreases |b|
  {
    if a == [] then true
    else if b == [] then false
    else if a[0] == b[0] then IsSubsequence(a[1..], b[1..])
    else IsSubsequence(a, b[1..])
  }

  predicate Distinct<T(==)>(s: seq<T>) {
    forall i, j :: 0 <= i < j < |s| ==> s[i] != s[j]
  }

  /** `(a + 1) * n` unfolded once, so that offsets stay linear for the solver. */
  lemma MulSucc(a: nat, n: nat)
    ensures (a + 1) * n == a * n + n
  {
  }

  /** Concatenation of equally long parts, as numpy's reshape(-1, n) and
      pandas' column-by-column melt lay them out. */
  function Concat<T>(parts: seq<seq<T>>, n: nat): (r: seq<T>)
    requires forall p :: 0 <= p < |parts| ==> |parts[p]| == n
    ensures |r| == |parts| * n
  {
    if parts == [] then []
    else
      MulSucc(|parts| - 1, n);
      parts[0] + Concat(parts[1..], n)
  }

  /** Element `i` of part `p` lands at position `p * n + i`. */
  lemma {:induction false} ConcatIndex<T>(parts: seq<seq<T>>, n: nat, p: nat, i: nat)
    requires forall q :: 0 <= q < |parts| ==> |parts[q]| == n
    requires p < |parts| && i < n
    ensures p * n + i < |Concat(parts, n)|
    ensures Concat(parts, n)[p * n + i] == parts[p][i]
  {
    if p > 0 {
      ConcatIndex(parts[1..], n, p - 1, i);
      MulSucc(p - 1, n);
    }
  }

  /** The elements of `s` satisfying `keep`, in order (a pandas boolean-mask selection). */
  function Filter<T(!new)>(s: seq<T>, keep: T -> bool): (r: seq<T>)
    ensures |r| <= |s|
    ensures forall x :: x in r ==> x in s && keep(x)
    ensures forall x :: x in s && keep(x) ==> x in r
    ensures forall x :: multiset(r)[x] == if keep(x) then multiset(s)[x] else 0
    ensures IsSubsequence(r, s)
  {
    if s == [] then []
    else
      var rest := Filter(s[1..], keep);
      assert s == [s[0]] + s[1..];
      assert multiset(s) == multiset{s[0]} + multiset(s[1..]);
      if keep(s[0]) then [s[0]] + rest else rest
  }

  /** How many elements satisfy `keep`. */
  function Count<T>(s: seq<T>, keep: T -> bool): (c: nat)
    ensures c <= |s|
  {
    if s == [] then 0 else (if keep(s[0]) then 1 else 0) + Count(s[1..], keep)
  }

  /** A selection keeps exactly as many elements as satisfy its mask. */
  lemma {:induction false} FilterCount<T(!new)>(s: seq<T>, keep: T -> bool)
    ensures |Filter(s, keep)| == Count(s, keep)
  {
    if s != [] {
      FilterCount(s[1..], keep);
    }
  }

  /** `Filter` without its contract, so that index reasoning about a
      selection does not drag the multiset and subsequence facts along. */
  function Kept<T>(s: seq<T>, keep: T -> bool): seq<T> {
    if s == [] then [] else (if keep(s[0]) then [s[0]] else []) + Kept(s[1..], keep)
  }

  lemma {:induction false} FilterIsKept<T(!new)>(s: seq<T>, keep: T -> bool)
    ensures Filter(s, keep) == Kept(s, keep)
  {
    if s != [] {
      FilterIsKept(s[1..], keep);
    }
  }

  /** The count of a non-empty prefix, unfolded once. */
  lemma CountPrefixCons<T>(s: seq<T>, keep: T -> bool, k: nat)
    requires 0 < k <= |s|
    ensures Count(s[..k], keep) == (if keep(s[0]) then 1 else 0) + Count(s[1..][..k - 1], keep)
  {
    assert s[..k][1..] == s[1..][..k - 1];
  }

  /** Element `i` of a selection is the element of `s` with exactly `i` kept
      elements before it. */
  lemma {:induction false} KeptAt<T>(s: seq<T>, keep: T -> bool, i: nat) returns (k: nat)
    requires i < |Kept(s, keep)|
    ensures k < |s| && keep(s[k]) && Count(s[..k], keep) == i && Kept(s, keep)[i] == s[k]
    decreases |s|
  {
    var head: seq<T> := if keep(s[0]) then [s[0]] else [];
    var rest := Kept(s[1..], keep);
    assert Kept(s, keep) == head + rest;
    if keep(s[0]) && i == 0 {
      k := 0;
    } else {
      var k' := KeptAt(s[1..], keep, i - |head|);
      k := k' + 1;
      CountPrefixCons(s, keep, k);
      assert (head + rest)[i] == rest[i - |head|] == s[k];
    }
  }

  /** A kept element lands at the position given by the number of kept
      elements before it. */
  lemma {:induction false} KeptRank<T>(s: seq<T>, keep: T -> bool, k: nat)
    requires k < |s| && keep(s[k])
    ensures Count(s[..k], keep) < |Kept(s, keep)| && Kept(s, keep)[Count(s[..k], keep)] == s[k]
    decreases |s|
  {
    var head: seq<T> := if keep(s[0]) then [s[0]] else [];
    var rest := Kept(s[1..], keep);
    assert Kept(s, keep) == head + rest;
    if k == 0 {
      assert s[..k] == [];
    } else {
      var c := Count(s[1..][..k - 1], keep);
      KeptRank(s[1..], keep, k - 1);
      CountPrefixCons(s, keep, k);
      assert Count(s[..k], keep) == |head| + c;
      assert (head + rest)[|head| + c] == rest[c] == s[k];
    }
  }

  /** A selection keeps exactly as many elements as satisfy its mask. */
  lemma {:induction false} KeptCount<T>(s: seq<T>, keep: T -> bool)
    ensures |Kept(s, keep)| == Count(s, keep)
  {
    if s != [] {
      KeptCount(s[1..], keep);
    }
  }

  /** No kept element comes before a position whose prefix count is 0. */
  lemma {:induction false} CountZero<T>(s: seq<T>, keep: T -> bool, k: nat)
    requires k <= |s| && Count(s[..k], keep) == 0
    ensures forall k' :: 0 <= k' < k ==> !keep(s[k'])
    decreases k
  {
    if k > 0 {
      assert s[..k][1..] == s[1..][..k - 1];
      CountZero(s[1..], keep, k - 1);
      assert forall k' :: 0 < k' < k ==> s[k'] == s[1..][k' - 1];
    }
  }

  lemma {:induction false} CountAppend<T>(a: seq<T>, b: seq<T>, keep: T -> bool)
    ensures Count(a + b, keep) == Count(a, keep) + Count(b, keep)
  {
    if a == [] {
      assert a + b == b;
    } else {
      assert (a + b)[1..] == a[1..] + b;
      CountAppend(a[1..], b, keep);
    }
  }

  /** The counts of the parts, added up. */
  function CountParts<T>(parts: seq<seq<T>>, keep: T -> bool): nat {
    if parts == [] then 0 else Count(parts[0], keep) + CountParts(parts[1..], keep)
  }

  lemma {:induction false} CountConcat<T>(parts: seq<seq<T>>, n: nat, keep: T -> bool)
    requires forall p :: 0 <= p < |parts| ==> |parts[p]| == n
    ensures Count(Concat(parts, n), keep) == CountParts(parts, keep)
  {
    if parts != [] {
      CountAppend(parts[0], Concat(parts[1..], n), keep);
      CountConcat(parts[1..], n, keep);
    }
  }

  /** drop_duplicates: the first occurrence of every element, in order. */
  function Dedup<T(==,!new)>(s: seq<T>): (r: seq<T>)
    ensures forall x :: x in r <==> x in s
    ensures |r| <= |s|
    decreases |s|
  {
    if s == [] then []
    else
      var r := Dedup(s[..|s| - 1]);
      assert forall x :: x in s <==> x in s[..|s| - 1] || x == s[|s| - 1];
      if s[|s| - 1] in r then r else r + [s[|s| - 1]]
  }

  /** drop_duplicates leaves every element once. */
  lemma {:induction false} DedupDistinct<T(!new)>(s: seq<T>)
    ensures Distinct(Dedup(s))
    decreases |s|
  {
    if s != [] {
      DedupDistinct(s[..|s| - 1]);
    }
  }

  /** drop_duplicates keeps elements in their original order. */
  lemma {:induction false} DedupSubsequence<T(!new)>(s: seq<T>)
    ensures IsSubsequence(Dedup(s), s)
    decreases |s|
  {
    if s != [] {
      DedupSubsequence(s[..|s| - 1]);
      SubsequenceSnoc(Dedup(s[..|s| - 1]), s[..|s| - 1], s[|s| - 1]);
      assert s == s[..|s| - 1] + [s[|s| - 1]];
    }
  }

  /** A subsequence stays one when an element is appended to the longer
      sequence, whether or not it is also appended to the shorter one. */
  lemma {:induction false} SubsequenceSnoc<T>(a: seq<T>, b: seq<T>, x: T)
    requires IsSubsequence(a, b)
    ensures IsSubsequence(a, b + [x]) && IsSubsequence(a + [x], b + [x])
    decreases |b|
  {
    if a == [] {
      assert IsSubsequence([x], [x]) by {
        assert [x][1..] == [];
      }
      SubsequenceTail(a + [x], b, x);
    } else {
      assert b != [];
      assert (b + [x])[1..] == b[1..] + [x];
      assert (a + [x])[1..] == a[1..] + [x];
      if a[0] == b[0] {
        SubsequenceSnoc(a[1..], b[1..], x);
      } else {
        SubsequenceSnoc(a, b[1..], x);
      }
    }
  }

  /** Skipping any prefix of `b`: `[x]` is a subsequence of `b + [x]`. */
  lemma {:induction false} SubsequenceTail<T>(a: seq<T>, b: seq<T>, x: T)
    requires a == [x]
    ensures IsSubsequence(a, b + [x])
    decreases |b|
  {
    if b == [] {
      assert b + [x] == [x];
      assert a[1..] == [];
    } else {
      assert (b + [x])[1..] == b[1..] + [x];
      if b[0] != x {
        SubsequenceTail(a, b[1..], x);
      } else {
        assert a[1..] == [];
      }
    }
  }
}
