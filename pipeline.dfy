/** One routing pipeline between a source port and a sink port: the chain
    of filters built from configured names, and the tick that moves one
    received event through the chain to the sink while counting what came
    in and what went out. The sequencer is not modelled; what it answers
    during a tick is given to `Run` as parameters. */
module Pipelines {
  import opened Wrappers
  import opened Seqs
  import opened Events
  import opened Filters

  /** Prefix of every error `run` reports. */
  const RunFailed: string := "failed processing pipeline: "

  /** The batch after each filter of the chain in turn, each filter taking
      the previous one's output, together with every filter's state after
      its call. */
  function RunChain(states: seq<FilterState>, batch: seq<Event>): (r: (seq<FilterState>, seq<Event>))
    ensures |r.0| == |states|
    decreases |states|
  {
    if states == [] then ([], batch)
    else
      var prev := RunChain(states[..|states| - 1], batch);
      var last := Apply(states[|states| - 1], prev.1);
      (prev.0 + [last.0], last.1)
  }

  /** Running two chains one after the other is running their
      concatenation. */
  lemma {:induction false} RunChainAppend(s: seq<FilterState>, t: seq<FilterState>, batch: seq<Event>)
    ensures var first := RunChain(s, batch);
      var second := RunChain(t, first.1);
      RunChain(s + t, batch) == (first.0 + second.0, second.1)
    decreases |t|
  {
    if t == [] {
      assert s + t == s;
      assert RunChain(s, batch).0 + [] == RunChain(s, batch).0;
    } else {
      var t', last := t[..|t| - 1], t[|t| - 1];
      assert (s + t)[..|s + t| - 1] == s + t';
      assert (s + t)[|s + t| - 1] == last;
      RunChainAppend(s, t', batch);
      var first := RunChain(s, batch);
      var prev := RunChain(t', first.1);
      var step := Apply(last, prev.1);
      assert (first.0 + prev.0) + [step.0] == first.0 + (prev.0 + [step.0]);
    }
  }

  /** A filter never changes kind: IgnoreSense and IgnoreClock stay
      stateless and EmulateANO stays an emulator. */
  lemma {:induction false} RunChainKeepsKinds(states: seq<FilterState>, batch: seq<Event>)
    ensures forall i :: 0 <= i < |states| ==>
      && (RunChain(states, batch).0[i].SenseState? <==> states[i].SenseState?)
      && (RunChain(states, batch).0[i].ClockState? <==> states[i].ClockState?)
      && (RunChain(states, batch).0[i].AnoState? <==> states[i].AnoState?)
    decreases |states|
  {
    if states != [] {
      RunChainKeepsKinds(states[..|states| - 1], batch);
    }
  }

  /** What the `i`-th send of a tick reports; sends beyond the given list
      succeed. */
  function SendResult(sends: seq<Outcome>, i: nat): Outcome {
    if i < |sends| then sends[i] else Pass
  }

  /** How many of the first `limit` sends succeed before the first one that
      fails. */
  function Delivered(sends: seq<Outcome>, limit: nat): (n: nat)
    ensures n <= limit
    ensures forall i :: 0 <= i < n ==> SendResult(sends, i).Pass?
    ensures n < limit ==> SendResult(sends, n).Fail?
    decreases limit
  {
    if limit == 0 then 0
    else
      var n := Delivered(sends, limit - 1);
      if n < limit - 1 || SendResult(sends, limit - 1).Fail? then n else limit
  }

  /** The names of a chain's filters, in chain order. */
  function NamesOf(fs: seq<Filter>): (names: seq<string>)
    ensures |names| == |fs|
    ensures forall i :: 0 <= i < |fs| ==> names[i] == fs[i].Name()
    decreases |fs|
  {
    if fs == [] then [] else NamesOf(fs[..|fs| - 1]) + [fs[|fs| - 1].Name()]
  }

  /** Every object the filters of `fs` own. */
  ghost function Footprints(fs: seq<Filter>): set<EmulateAno> {
    set i | 0 <= i < |fs| && fs[i].Emulate? :: fs[i].ano
  }

  /** No two filters share state, and every filter is valid. */
  ghost predicate ChainValid(fs: seq<Filter>)
    reads Footprints(fs)
  {
    && (forall i, j :: 0 <= i < |fs| && 0 <= j < |fs| && i != j && fs[i].Emulate? && fs[j].Emulate? ==> fs[i].ano != fs[j].ano)
    && (forall i :: 0 <= i < |fs| ==> fs[i].Valid())
  }

  /** The abstract values of the filters of `fs`, in chain order. */
  ghost function StatesOf(fs: seq<Filter>): (r: seq<FilterState>)
    reads Footprints(fs)
    ensures |r| == |fs|
    ensures forall i :: 0 <= i < |fs| ==> r[i] == fs[i].State()
    decreases |fs|
  {
    if fs == [] then []
    else
      var init, last := fs[..|fs| - 1], fs[|fs| - 1];
      assert Footprints(init) <= Footprints(fs) by {
        assert forall i :: 0 <= i < |init| ==> init[i] == fs[i];
      }
      StatesOf(init) + [last.State()]
  }

  /** The filter chain of `Pipeline::new`: one fresh filter per name the
      registry recognises, in the configured order; unknown names are
      dropped without an error. */
  method BuildFilters(names: seq<string>) returns (fs: seq<Filter>)
    ensures ChainValid(fs)
    ensures NamesOf(fs) == Retained(names, Known)
    ensures StatesOf(fs) == FilterMap(names, Initial)
  {
    fs := [];
    for k := 0 to |names|
      invariant ChainValid(fs)
      invariant NamesOf(fs) == Retained(names[..k], Known)
      invariant StatesOf(fs) == FilterMap(names[..k], Initial)
    {
      PrefixStep(names, k);
      fs := AddFilter(fs, names[k]);
    }
    assert names[..|names|] == names;
  }

  /** One step of the `filter_map`: the registry's filter for `name` is
      appended to the chain if the name is known, and nothing otherwise. */
  method AddFilter(fs: seq<Filter>, name: string) returns (fs': seq<Filter>)
    requires ChainValid(fs)
    ensures ChainValid(fs')
    ensures NamesOf(fs') == NamesOf(fs) + Retained([name], Known)
    ensures StatesOf(fs') == old(StatesOf(fs)) + FilterMap([name], Initial)
  {
    var made := New(name);
    ChainFramed(fs);
    assert [name][..0] == [];
    if made.Success? {
      ChainValidAppend(fs, made.value);
      ChainAppend(fs, made.value);
      fs' := fs + [made.value];
    } else {
      fs' := fs;
    }
  }

  /** The first `k + 1` names are the first `k` and then name `k`, for
      both the recognised names and their initial states. */
  lemma PrefixStep(names: seq<string>, k: nat)
    requires k < |names|
    ensures Retained(names[..k + 1], Known) == Retained(names[..k], Known) + Retained([names[k]], Known)
    ensures FilterMap(names[..k + 1], Initial) == FilterMap(names[..k], Initial) + FilterMap([names[k]], Initial)
  {
    assert names[..k + 1] == names[..k] + [names[k]];
    RetainedAppend(names[..k], [names[k]], Known);
    FilterMapAppend(names[..k], [names[k]], Initial);
  }

  /** A chain whose objects did not change keeps its states and its
      validity. */
  twostate lemma {:induction false} ChainFramed(fs: seq<Filter>)
    requires forall i :: 0 <= i < |fs| && fs[i].Emulate? ==> unchanged(fs[i].ano)
    ensures StatesOf(fs) == old(StatesOf(fs))
    ensures ChainValid(fs) == old(ChainValid(fs))
    decreases |fs|
  {
    if fs != [] {
      ChainFramed(fs[..|fs| - 1]);
    }
  }

  /** The filter loop of `run`: the batch goes through every filter of the
      chain in order, each filter taking the previous one's output. */
  method ApplyFilters(fs: seq<Filter>, batch: seq<Event>) returns (events: seq<Event>)
    requires ChainValid(fs)
    modifies Footprints(fs)
    ensures ChainValid(fs)
    ensures (StatesOf(fs), events) == RunChain(old(StatesOf(fs)), batch)
  {
    ghost var start := StatesOf(fs);
    ghost var done: seq<FilterState> := [];
    events := batch;
    for k := 0 to |fs|
      invariant Applied(fs, k, batch, start, done, events)
    {
      events, done := ApplyOne(fs, k, batch, start, done, events);
    }
    ChainDone(start, done, events, batch);
  }

  /** Once every filter has run, the loop's record is the whole chain's. */
  lemma ChainDone(start: seq<FilterState>, done: seq<FilterState>, events: seq<Event>, batch: seq<Event>)
    requires (done, events) == RunChain(start[..|start|], batch)
    ensures (done + start[|start|..], events) == RunChain(start, batch)
  {
    assert start[..|start|] == start;
    assert done + start[|start|..] == done;
  }

  /** The state of the filter loop once the first `k` filters of `fs`,
      which started from `start`, have run on `batch`: their states are
      `done`, the others are untouched, and `events` is their output. */
  ghost predicate Applied(fs: seq<Filter>, k: nat, batch: seq<Event>, start: seq<FilterState>, done: seq<FilterState>, events: seq<Event>)
    reads Footprints(fs)
  {
    && ChainValid(fs) && k <= |fs| == |start|
    && (done, events) == RunChain(start[..k], batch)
    && StatesOf(fs) == done + start[k..]
  }

  /** One step of the filter loop: the `k`-th filter takes the output of
      the first `k`, and every other filter keeps its state. */
  method ApplyOne(fs: seq<Filter>, k: nat, ghost batch: seq<Event>, ghost start: seq<FilterState>, ghost done: seq<FilterState>, events: seq<Event>)
    returns (out: seq<Event>, ghost done': seq<FilterState>)
    requires k < |fs| && Applied(fs, k, batch, start, done, events)
    modifies Footprints(fs)
    ensures Applied(fs, k + 1, batch, start, done', out)
  {
    RunChainStep(start, k, batch);
    assert fs[k].State() == start[k];
    out := Process(fs[k], events);
    ChainStep((fs, k));
    done' := done + [fs[k].State()];
    SpliceStep(done, start, k, fs[k].State());
  }

  /** After a call on one filter of a valid chain that changed only that
      filter's objects, the chain is still valid and only that filter's
      state has changed; `at` pairs the chain with the filter's index. */
  twostate lemma {:induction false} ChainStep(at: (seq<Filter>, int))
    requires 0 <= at.1 < |at.0| && old(ChainValid(at.0)) && at.0[at.1].Valid()
    requires forall i :: 0 <= i < |at.0| && at.0[i].Emulate? && at.0[i].ano !in at.0[at.1].Footprint() ==> unchanged(at.0[i].ano)
    ensures ChainValid(at.0)
    ensures StatesOf(at.0) == old(StatesOf(at.0))[at.1 := at.0[at.1].State()]
  {
    var fs, k := at.0, at.1;
    forall i | 0 <= i < |fs| && i != k
      ensures fs[i].State() == old(fs[i].State()) && fs[i].Valid()
    {
      if fs[i].Emulate? {
        assert fs[i].ano !in fs[k].Footprint();
      }
    }
  }

  /** The chain's first `k + 1` filters are its first `k` followed by
      filter `k`. */
  lemma RunChainStep(states: seq<FilterState>, k: nat, batch: seq<Event>)
    requires k < |states|
    ensures var prev := RunChain(states[..k], batch);
      var last := Apply(states[k], prev.1);
      RunChain(states[..k + 1], batch) == (prev.0 + [last.0], last.1)
  {
    assert states[..k + 1][..k] == states[..k];
  }

  /** Replacing the first untouched state by a new one moves the boundary
      between done and untouched states one place on. */
  lemma SpliceStep<T>(done: seq<T>, start: seq<T>, k: nat, x: T)
    requires |done| == k < |start|
    ensures (done + start[k..])[k := x] == (done + [x]) + start[k + 1..]
  {
  }

  /** Appending a valid filter that shares no state with the chain keeps
      the chain valid. */
  lemma ChainValidAppend(fs: seq<Filter>, f: Filter)
    requires ChainValid(fs) && f.Valid()
    requires f.Emulate? ==> forall i :: 0 <= i < |fs| && fs[i].Emulate? ==> fs[i].ano != f.ano
    ensures ChainValid(fs + [f])
  {
  }

  /** The names and states of a chain one filter longer. */
  lemma ChainAppend(fs: seq<Filter>, f: Filter)
    ensures StatesOf(fs + [f]) == StatesOf(fs) + [f.State()]
    ensures NamesOf(fs + [f]) == NamesOf(fs) + [f.Name()]
  {
    assert (fs + [f])[..|fs|] == fs;
  }

  /** A pipeline: its filter chain and its two counters. */
  class Pipeline {
    /** The filters applied to every received event, in order. */
    var filters: seq<Filter>
    /** Events taken in. */
    var ingested: nat
    /** Events written out. */
    var delivered: nat

    ghost function Anos(): set<EmulateAno>
      reads this
    {
      Footprints(filters)
    }

    ghost predicate Valid()
      reads this, Anos()
    {
      ChainValid(filters)
    }

    /** The abstract values of the filters, in chain order. */
    ghost function States(): seq<FilterState>
      reads this, Anos()
    {
      StatesOf(filters)
    }

    /** The filter-list part of `Pipeline::new`; the sequencer set-up is
        not modelled. */
    constructor (filterNames: seq<string>)
      ensures Valid()
      ensures NamesOf(filters) == Retained(filterNames, Known)
      ensures States() == FilterMap(filterNames, Initial)
      ensures ingested == 0 && delivered == 0
    {
      var fs := BuildFilters(filterNames);
      label built:
      filters := fs;
      ingested := 0;
      delivered := 0;
      new;
      ChainFramed@built(fs);
    }

    /** The counters `(ingested, delivered)`. */
    function Status(): (status: (nat, nat))
      reads this
      ensures status.0 == ingested && status.1 == delivered
    {
      (ingested, delivered)
    }

    /** One tick. `pending` is what the pending-input poll reports,
        `received` the event read, and `sends` what each direct output
        reports in turn. `sent` holds the events whose send reported
        success, in order. */
    method Run(pending: Result<nat>, received: Result<Event>, sends: seq<Outcome>)
      returns (r: Result<bool>, sent: seq<Event>)
      requires Valid()
      modifies this, Anos()
      ensures Valid() && filters == old(filters)
      ensures pending.Failure? ==>
        && r == Failure(RunFailed + pending.error)
        && sent == [] && ingested == old(ingested) && delivered == old(delivered)
        && States() == old(States())
      ensures pending == Success(0) ==>
        && r == Success(false)
        && sent == [] && ingested == old(ingested) && delivered == old(delivered)
        && States() == old(States())
      ensures pending.Success? && pending.value > 0 && received.Failure? ==>
        && r == Failure(RunFailed + received.error)
        && sent == [] && ingested == old(ingested) && delivered == old(delivered)
        && States() == old(States())
      ensures pending.Success? && pending.value > 0 && received.Success? ==>
        var (states, batch) := RunChain(old(States()), [received.value]);
        var n := Delivered(sends, |batch|);
        && States() == states
        && ingested == old(ingested) + 1
        && delivered == old(delivered) + n
        && sent == batch[..n]
        && r == (if n == |batch| then Success(true) else Failure(RunFailed + SendResult(sends, n).error))
    {
      if pending.Failure? {
        return Failure(RunFailed + pending.error), [];
      }
      if pending.value == 0 {
        return Success(false), [];
      }
      if received.Failure? {
        return Failure(RunFailed + received.error), [];
      }
      ingested := ingested + 1;
      ChainFramed(filters);
      var events := ApplyFilters(filters, [received.value]);
      r, sent := Deliver(events, sends);
    }

    /** The send loop of `run`: every event of the batch goes to the sink
        in order, and the first failing send ends the tick. */
    method Deliver(events: seq<Event>, sends: seq<Outcome>) returns (r: Result<bool>, sent: seq<Event>)
      modifies this
      ensures filters == old(filters) && ingested == old(ingested)
      ensures StatesOf(filters) == old(StatesOf(filters))
      ensures ChainValid(filters) == old(ChainValid(filters))
      ensures var n := Delivered(sends, |events|);
        && delivered == old(delivered) + n
        && sent == events[..n]
        && r == (if n == |events| then Success(true) else Failure(RunFailed + SendResult(sends, n).error))
    {
      sent := [];
      for i := 0 to |events|
        invariant filters == old(filters) && ingested == old(ingested)
        invariant delivered == old(delivered) + i
        invariant sent == events[..i]
        invariant Delivered(sends, i) == i
      {
        var outcome := SendResult(sends, i);
        if outcome.Fail? {
          ChainFramed(filters);
          return Failure(RunFailed + outcome.error), sent;
        }
        delivered := delivered + 1;
        sent := sent + [events[i]];
      }
      ChainFramed(filters);
      return Success(true), sent;
    }
  }
}
