/** Order-preserving filtering of sequences, the model of `Array.prototype.filter`. */
module Seqs {

  /** `a` can be obtained from `b` by deleting elements, without reordering
      the ones that remain. */
  predicate IsSubsequence<T(==)>(a: seq<T>, b: seq<T>)
    decreases |b|
  {
    if |a| == 0 then true
    else if |b| == 0 then false
    else (a[0] == b[0] && IsSubsequence(a[1..], b[1..])) || IsSubsequence(a, b[1..])
  }

  /** The elements of `s` that satisfy `keep`, in their original order. */
  function Filter<T(==)>(s: seq<T>, keep: T -> bool): (r: seq<T>)
    ensures |r| <= |s|
    ensures forall i :: 0 <= i < |r| ==> r[i] in s && keep(r[i])
    ensures forall i :: 0 <= i < |s| && keep(s[i]) ==> s[i] in r
  {
    if |s| == 0 then []
    else (if keep(s[0]) then [s[0]] else []) + Filter(s[1..], keep)
  }

  /** An element survives filtering exactly when it occurs in the input and
      satisfies the predicate. */
  lemma {:induction false} FilterMembership<T>(s: seq<T>, keep: T -> bool, x: T)
    ensures x in Filter(s, keep) <==> x in s && keep(x)
  {
    if |s| > 0 {
      FilterMembership(s[1..], keep, x);
      assert s == [s[0]] + s[1..];
    }
  }

  /** Filtering never reorders: the result is a subsequence of the input. */
  lemma {:induction false} FilterIsSubsequence<T>(s: seq<T>, keep: T -> bool)
    ensures IsSubsequence(Filter(s, keep), s)
  {
    if |s| > 0 {
      FilterIsSubsequence(s[1..], keep);
      var rest := Filter(s[1..], keep);
      if keep(s[0]) {
        assert Filter(s, keep) == [s[0]] + rest;
        assert ([s[0]] + rest)[1..] == rest;
      } else {
        assert Filter(s, keep) == rest;
        if |rest| > 0 {
          assert IsSubsequence(rest, s[1..]);
        }
      }
    }
  }

  /** Filtering a non-empty sequence, counted with multiplicity: its head,
      if kept, together with the filtered tail. */
  lemma FilterConsMultiset<T>(s: seq<T>, keep: T -> bool)
    requires |s| > 0
    ensures multiset(Filter(s, keep))
            == (if keep(s[0]) then multiset{s[0]} else multiset{}) + multiset(Filter(s[1..], keep))
  {
  }

  /** The multiset of a non-empty sequence is its head plus its tail. */
  lemma MultisetCons<T>(s: seq<T>)
    requires |s| > 0
    ensures multiset(s) == multiset{s[0]} + multiset(s[1..])
  {
    assert s == [s[0]] + s[1..];
  }

  /** Three predicates that sort every element into exactly one class split
      a sequence into three filtered sequences that, counted with
      multiplicity, hold exactly its elements. */
  lemma {:induction false} FilterPartition<T>(s: seq<T>, p: T -> bool, q: T -> bool, r: T -> bool)
    requires forall x :: p(x) || q(x) || r(x)
    requires forall x :: !(p(x) && q(x)) && !(p(x) && r(x)) && !(q(x) && r(x))
    ensures multiset(Filter(s, p)) + multiset(Filter(s, q)) + multiset(Filter(s, r)) == multiset(s)
  {
    if |s| > 0 {
      FilterPartition(s[1..], p, q, r);
      PartitionStep(s, p, q, r);
    }
  }

  /** The inductive step of `FilterPartition`: the head of the sequence
      lands in exactly one of the three filtered sequences. */
  lemma PartitionStep<T>(s: seq<T>, p: T -> bool, q: T -> bool, r: T -> bool)
    requires |s| > 0
    requires p(s[0]) || q(s[0]) || r(s[0])
    requires !(p(s[0]) && q(s[0])) && !(p(s[0]) && r(s[0])) && !(q(s[0]) && r(s[0]))
    requires multiset(Filter(s[1..], p)) + multiset(Filter(s[1..], q)) + multiset(Filter(s[1..], r))
             == multiset(s[1..])
    ensures multiset(Filter(s, p)) + multiset(Filter(s, q)) + multiset(Filter(s, r)) == multiset(s)
  {
    var x, rest := s[0], s[1..];
    MultisetCons(s);
    FilterConsMultiset(s, p);
    FilterConsMultiset(s, q);
    FilterConsMultiset(s, r);
    ThreeWayUnion(x, p(x), q(x), r(x), multiset(Filter(rest, p)), multiset(Filter(rest, q)),
                  multiset(Filter(rest, r)), multiset(rest));
  }

  /** An element that belongs to exactly one of three classes, added to
      three multisets that make up `rest`, makes up `rest` plus that element. */
  lemma ThreeWayUnion<T>(x: T, inP: bool, inQ: bool, inR: bool,
                         a: multiset<T>, b: multiset<T>, c: multiset<T>, rest: multiset<T>)
    requires (if inP then 1 else 0) + (if inQ then 1 else 0) + (if inR then 1 else 0) == 1
    requires a + b + c == rest
    ensures ((if inP then multiset{x} else multiset{}) + a)
          + ((if inQ then multiset{x} else multiset{}) + b)
          + ((if inR then multiset{x} else multiset{}) + c) == multiset{x} + rest
  {
  }
}
