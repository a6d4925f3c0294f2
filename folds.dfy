module Folds {
  /** A stateful transducer run over a sequence, one element at a time:
      the state after the last element and everything emitted, in order. */
  function Fold<S, E>(step: (S, E) -> (S, seq<E>), start: S, es: seq<E>): (S, seq<E>)
    decreases |es|
  {
    if es == [] then (start, [])
    else
      var prev := Fold(step, start, es[..|es| - 1]);
      var last := step(prev.0, es[|es| - 1]);
      (last.0, prev.1 + last.1)
  }

  lemma FoldSnoc<S, E>(step: (S, E) -> (S, seq<E>), start: S, es: seq<E>, e: E)
    ensures var prev := Fold(step, start, es);
      var last := step(prev.0, e);
      Fold(step, start, es + [e]) == (last.0, prev.1 + last.1)
  {
    assert (es + [e])[..|es|] == es;
  }

  lemma {:induction false} FoldAppend<S, E>(step: (S, E) -> (S, seq<E>), start: S, s: seq<E>, t: seq<E>)
    ensures var first := Fold(step, start, s);
      var second := Fold(step, first.0, t);
      Fold(step, start, s + t) == (second.0, first.1 + second.1)
    decreases |t|
  {
    var first := Fold(step, start, s);
    if t == [] {
      assert s + t == s;
      assert first.1 + [] == first.1;
    } else {
      var t', e := t[..|t| - 1], t[|t| - 1];
      FoldAppend(step, start, s, t');
      assert s + t == (s + t') + [e];
      FoldSnoc(step, start, s + t', e);
      assert t == t' + [e];
      FoldSnoc(step, first.0, t', e);
      var prev := Fold(step, first.0, t');
      var last := step(prev.0, e);
      assert (first.1 + prev.1) + last.1 == first.1 + (prev.1 + last.1);
    }
  }

  /** Each step emits at least the element it was given, as its last output. */
  ghost predicate Forwards<S(!new), E(!new)>(step: (S, E) -> (S, seq<E>)) {
    forall s, e :: |step(s, e).1| > 0 && step(s, e).1[|step(s, e).1| - 1] == e
  }

  /** Every output of a step before the forwarded element stands in
      relation `extra` to that element. */
  ghost predicate InsertsOnly<S(!new), E(!new)>(step: (S, E) -> (S, seq<E>), extra: (E, E) -> bool) {
    forall s, e, k :: 0 <= k < |step(s, e).1| - 1 ==> extra(step(s, e).1[k], e)
  }

  function GapStart(idx: seq<int>, i: nat): int
    requires i < |idx|
  {
    if i == 0 then 0 else idx[i - 1] + 1
  }

  /** Where each input element lands in the output of a forwarding fold:
      the last output of each step. */
  function Placement<S, E>(step: (S, E) -> (S, seq<E>), start: S, es: seq<E>): (idx: seq<int>)
    ensures |idx| == |es|
    decreases |es|
  {
    if es == [] then []
    else
      var init := es[..|es| - 1];
      Placement(step, start, init) + [|Fold(step, start, es).1| - 1]
  }

  /** Every input element appears in the output, in input order, and the
      output ends with the last input. */
  lemma {:induction false} PlacementForwards<S(!new), E(!new)>(step: (S, E) -> (S, seq<E>), start: S, es: seq<E>)
    requires Forwards(step)
    ensures var idx, out := Placement(step, start, es), Fold(step, start, es).1;
      && (forall i :: 0 <= i < |idx| ==> 0 <= idx[i] < |out| && out[idx[i]] == es[i])
      && (forall i, j :: 0 <= i < j < |idx| ==> idx[i] < idx[j])
      && (|idx| > 0 ==> idx[|idx| - 1] == |out| - 1)
      && (|idx| == 0 ==> out == [])
    decreases |es|
  {
    if es != [] {
      var init, e := es[..|es| - 1], es[|es| - 1];
      PlacementForwards(step, start, init);
      var prev := Fold(step, start, init);
      var last := step(prev.0, e);
      var out := Fold(step, start, es).1;
      assert out == prev.1 + last.1;
      assert |last.1| > 0 && last.1[|last.1| - 1] == e;
      var idx0 := Placement(step, start, init);
      var idx := Placement(step, start, es);
      assert idx == idx0 + [|out| - 1];
      forall i | 0 <= i < |idx|
        ensures 0 <= idx[i] < |out| && out[idx[i]] == es[i]
      {
        if i < |idx0| {
          assert idx[i] == idx0[i] && es[i] == init[i];
          assert out[idx0[i]] == prev.1[idx0[i]];
        }
      }
      forall i, j | 0 <= i < j < |idx|
        ensures idx[i] < idx[j]
      {
        if j < |idx0| {
          assert idx[i] == idx0[i] && idx[j] == idx0[j];
        } else {
          assert idx[i] == idx0[i] < |prev.1|;
        }
      }
    }
  }

  /** Where the `i`-th input lands: the last output of the fold over the
      first `i + 1` inputs. */
  lemma {:induction false} PlacementPrefix<S, E>(step: (S, E) -> (S, seq<E>), start: S, es: seq<E>, i: nat)
    requires i < |es|
    ensures Placement(step, start, es)[i] == |Fold(step, start, es[..i + 1]).1| - 1
    decreases |es|
  {
    var init := es[..|es| - 1];
    if i == |es| - 1 {
      assert es[..i + 1] == es;
    } else {
      PlacementPrefix(step, start, init, i);
      assert init[..i + 1] == es[..i + 1];
    }
  }

  /** The stretch of output that the `i`-th input's step contributes:
      it starts after the output of the first `i` inputs, ends with that
      input, and is the same in the output of the whole fold. */
  lemma PlacementSlice<S, E>(step: (S, E) -> (S, seq<E>), start: S, es: seq<E>, i: nat)
    requires i < |es|
    ensures var idx, out := Placement(step, start, es), Fold(step, start, es).1;
      var before, upto := Fold(step, start, es[..i]).1, Fold(step, start, es[..i + 1]).1;
      && GapStart(idx, i) == |before|
      && idx[i] == |upto| - 1
      && upto <= out
  {
    PlacementPrefix(step, start, es, i);
    if i > 0 {
      PlacementPrefix(step, start, es, i - 1);
      assert es[..i - 1 + 1] == es[..i];
    } else {
      assert es[..0] == [];
    }
    FoldAppend(step, start, es[..i + 1], es[i + 1..]);
    assert es[..i + 1] + es[i + 1..] == es;
  }

  /** In a forwarding fold, the output right before the `i`-th input is
      exactly what that input's step emitted ahead of it. */
  lemma FoldGap<S(!new), E(!new)>(step: (S, E) -> (S, seq<E>), start: S, es: seq<E>, i: nat)
    requires Forwards(step)
    requires i < |es|
    ensures var idx, out := Placement(step, start, es), Fold(step, start, es).1;
      var last := step(Fold(step, start, es[..i]).0, es[i]).1;
      && 0 <= GapStart(idx, i) <= idx[i] < |out|
      && out[GapStart(idx, i)..idx[i]] == last[..|last| - 1]
  {
    var prev := Fold(step, start, es[..i]);
    var last := step(prev.0, es[i]).1;
    assert es[..i + 1] == es[..i] + [es[i]];
    FoldSnoc(step, start, es[..i], es[i]);
    PlacementSlice(step, start, es, i);
    SliceOfExtension(prev.1, last, Fold(step, start, es).1);
  }

  /** In any extension of `p + c`, the stretch after `p` up to the last
      element of `c` is `c` without that element. */
  lemma SliceOfExtension<T>(p: seq<T>, c: seq<T>, out: seq<T>)
    requires |c| > 0 && p + c <= out
    ensures out[|p|..|p| + |c| - 1] == c[..|c| - 1]
  {
    assert forall k :: |p| <= k < |p| + |c| - 1 ==> out[k] == (p + c)[k] == c[k - |p|];
  }

  /** Every output that is not a forwarded input precedes, with nothing
      but other such outputs in between, the input that caused it. */
  lemma {:induction false} PlacementGapAt<S(!new), E(!new)>(step: (S, E) -> (S, seq<E>), extra: (E, E) -> bool, start: S, es: seq<E>, i: nat, k: int)
    requires Forwards(step) && InsertsOnly(step, extra)
    requires i < |es|
    requires 0 <= GapStart(Placement(step, start, es), i) <= k < Placement(step, start, es)[i]
    ensures k < |Fold(step, start, es).1| && extra(Fold(step, start, es).1[k], es[i])
    decreases |es|
  {
    var init, e := es[..|es| - 1], es[|es| - 1];
    var prev := Fold(step, start, init);
    var last := step(prev.0, e);
    var out := Fold(step, start, es).1;
    assert out == prev.1 + last.1 by {
      assert es == init + [e];
      FoldSnoc(step, start, init, e);
    }
    var idx0 := Placement(step, start, init);
    var idx := Placement(step, start, es);
    assert idx == idx0 + [|out| - 1];
    if i < |idx0| {
      assert idx[i] == idx0[i];
      assert GapStart(idx, i) == GapStart(idx0, i);
      PlacementGapAt(step, extra, start, init, i, k);
      assert out[k] == prev.1[k];
      assert es[i] == init[i];
    } else {
      assert GapStart(idx, i) == |prev.1| by {
        PlacementForwards(step, start, init);
      }
      assert 0 <= k - |prev.1| < |last.1| - 1;
      assert out[k] == last.1[k - |prev.1|];
    }
  }

  /** A forwarding fold emits at least its input; when it emits no more,
      it emitted exactly its input. */
  lemma {:induction false} FoldForwardsAll<S(!new), E(!new)>(step: (S, E) -> (S, seq<E>), start: S, es: seq<E>)
    requires Forwards(step)
    ensures |Fold(step, start, es).1| >= |es|
    ensures |Fold(step, start, es).1| == |es| ==> Fold(step, start, es).1 == es
    decreases |es|
  {
    if es != [] {
      var init, e := es[..|es| - 1], es[|es| - 1];
      assert es == init + [e];
      FoldSnoc(step, start, init, e);
      FoldForwardsAll(step, start, init);
      var prev := Fold(step, start, init);
      var last := step(prev.0, e);
      if |Fold(step, start, es).1| == |es| {
        assert |last.1| == 1;
        assert last.1 == [e];
      }
    }
  }
}
