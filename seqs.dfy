/** Specifications of the two iterator idioms the source relies on:
    `Vec::retain` (keep the elements a predicate accepts, in place) and
    `Iterator::filter_map` (map to an option, keep the `Some` values). */
module Seqs {
  import opened Wrappers

  /** The elements of `s` that `keep` accepts, in their original order. */
  function Retained<T(!new)>(s: seq<T>, keep: T -> bool): (r: seq<T>)
    ensures |r| <= |s|
    ensures forall i :: 0 <= i < |r| ==> keep(r[i])
    decreases |s|
  {
    if s == [] then []
    else Retained(s[..|s| - 1], keep) + (if keep(s[|s| - 1]) then [s[|s| - 1]] else [])
  }

  /** An element survives exactly when it was there and `keep` accepts it. */
  lemma {:induction false} RetainedMembers<T(!new)>(s: seq<T>, keep: T -> bool)
    ensures forall x :: x in Retained(s, keep) <==> x in s && keep(x)
    decreases |s|
  {
    if s != [] {
      var s', last := s[..|s| - 1], s[|s| - 1];
      RetainedMembers(s', keep);
      assert s == s' + [last];
    }
  }

  /** Retaining distributes over concatenation: what survives of `s`
      comes before what survives of `t`, so relative order is kept. */
  lemma {:induction false} RetainedAppend<T(!new)>(s: seq<T>, t: seq<T>, keep: T -> bool)
    ensures Retained(s + t, keep) == Retained(s, keep) + Retained(t, keep)
    decreases |t|
  {
    if t == [] {
      assert s + t == s;
    } else {
      var t' := t[..|t| - 1];
      assert (s + t)[..|s + t| - 1] == s + t';
      RetainedAppend(s, t', keep);
    }
  }

  /** Retaining twice with the same predicate is retaining once. */
  lemma {:induction false} RetainedIdempotent<T(!new)>(s: seq<T>, keep: T -> bool)
    ensures Retained(Retained(s, keep), keep) == Retained(s, keep)
    decreases |s|
  {
    if s != [] {
      var s' := s[..|s| - 1];
      var last := s[|s| - 1];
      RetainedIdempotent(s', keep);
      var tail := if keep(last) then [last] else [];
      RetainedAppend(Retained(s', keep), tail, keep);
    }
  }

  /** When every element is accepted the sequence is left exactly as it was. */
  lemma {:induction false} RetainedAllKept<T(!new)>(s: seq<T>, keep: T -> bool)
    requires forall i :: 0 <= i < |s| ==> keep(s[i])
    ensures Retained(s, keep) == s
    decreases |s|
  {
    if s != [] {
      var s' := s[..|s| - 1];
      assert forall i :: 0 <= i < |s'| ==> s'[i] == s[i];
      RetainedAllKept(s', keep);
      assert keep(s[|s| - 1]);
      assert s == s' + [s[|s| - 1]];
    }
  }

  /** Retaining only drops elements: it never duplicates one. */
  lemma {:induction false} RetainedSubMultiset<T(!new)>(s: seq<T>, keep: T -> bool)
    ensures multiset(Retained(s, keep)) <= multiset(s)
    decreases |s|
  {
    if s != [] {
      var s', last := s[..|s| - 1], s[|s| - 1];
      RetainedSubMultiset(s', keep);
      assert s == s' + [last];
      assert multiset(s) == multiset(s') + multiset{last};
      var tail := if keep(last) then [last] else [];
      assert multiset(Retained(s, keep)) == multiset(Retained(s', keep)) + multiset(tail);
    }
  }

  /** `Vec::retain` as a loop over the sequence. */
  method Retain<T(!new)>(s: seq<T>, keep: T -> bool) returns (kept: seq<T>)
    ensures kept == Retained(s, keep)
  {
    kept := [];
    for i := 0 to |s|
      invariant kept == Retained(s[..i], keep)
    {
      assert s[..i + 1][..i] == s[..i];
      if keep(s[i]) {
        kept := kept + [s[i]];
      }
    }
    assert s[..|s|] == s;
  }

  /** The `Some` values `f` gives for the elements of `s`, in order. */
  function FilterMap<A, B(!new)>(s: seq<A>, f: A -> Option<B>): (r: seq<B>)
    ensures |r| <= |s|
    decreases |s|
  {
    if s == [] then []
    else
      var r' := FilterMap(s[..|s| - 1], f);
      match f(s[|s| - 1])
      case Some(y) => r' + [y]
      case None => r'
  }

  /** A value is kept exactly when `f` gives it for some element. */
  lemma {:induction false} FilterMapMembers<A, B(!new)>(s: seq<A>, f: A -> Option<B>)
    ensures forall y :: y in FilterMap(s, f) <==> exists i :: 0 <= i < |s| && f(s[i]) == Some(y)
    decreases |s|
  {
    if s != [] {
      var s' := s[..|s| - 1];
      FilterMapMembers(s', f);
      assert forall i :: 0 <= i < |s'| ==> s'[i] == s[i];
    }
  }

  /** `filter_map` distributes over concatenation, so the kept values
      keep the relative order of the elements they came from. */
  lemma {:induction false} FilterMapAppend<A, B(!new)>(s: seq<A>, t: seq<A>, f: A -> Option<B>)
    ensures FilterMap(s + t, f) == FilterMap(s, f) + FilterMap(t, f)
    decreases |t|
  {
    if t == [] {
      assert s + t == s;
    } else {
      var t' := t[..|t| - 1];
      assert (s + t)[..|s + t| - 1] == s + t';
      FilterMapAppend(s, t', f);
    }
  }

  /** When `f` gives a value for every element, nothing is dropped and
      the values come in the order of their elements. */
  lemma {:induction false} FilterMapAllSome<A, B(!new)>(s: seq<A>, f: A -> Option<B>)
    requires forall i :: 0 <= i < |s| ==> f(s[i]).Some?
    ensures |FilterMap(s, f)| == |s|
    ensures forall i :: 0 <= i < |s| ==> f(s[i]) == Some(FilterMap(s, f)[i])
    decreases |s|
  {
    if s != [] {
      var s' := s[..|s| - 1];
      assert forall i :: 0 <= i < |s'| ==> s'[i] == s[i];
      FilterMapAllSome(s', f);
    }
  }
}
