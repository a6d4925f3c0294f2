/** The filter set of a pipeline and its registry: two stateless filters
    that drop one event type, and the stateful "all notes off" emulator,
    which remembers the sounding notes and releases them when a channel's
    All Notes Off controller (number 123, a channel mode message of the
    MIDI 1.0 Detailed Specification) arrives. */
module Filters {
  import opened Wrappers
  import opened Seqs
  import opened Events
  import opened Folds

  /** Controller number of the All Notes Off channel mode message. */
  const AllNotesOff: u32 := 123

  /** A note the emulator considers sounding. */
  datatype ActiveNote = ActiveNote(channel: u8, note: u8)

  /** No `(channel, note)` pair is held twice. */
  ghost predicate Distinct(active: seq<ActiveNote>) {
    forall an :: multiset(active)[an] <= 1
  }

  // ---------------------------------------------------------------------
  // IgnoreSense and IgnoreClock

  function NotSensing(e: Event): bool { !e.Sensing? }

  function NotClock(e: Event): bool { !e.Clock? }

  // ---------------------------------------------------------------------
  // EmulateANO: the active-note list, one event at a time

  /** Index of the first occurrence of `x`, as `Iterator::position` finds it. */
  function Position<T(==)>(s: seq<T>, x: T): (r: Option<nat>)
    ensures r.Some? ==> r.value < |s| && s[r.value] == x && x !in s[..r.value]
    ensures r.None? <==> x !in s
  {
    if s == [] then None
    else if s[0] == x then Some(0)
    else match Position(s[1..], x)
      case None => None
      case Some(i) => Some(i + 1)
  }

  /** `Vec::swap_remove`: the element at `i` is removed and the last
      element takes its place. */
  function SwapRemove<T>(s: seq<T>, i: nat): (r: seq<T>)
    requires i < |s|
    ensures |r| == |s| - 1
    ensures i < |r| ==> r[i] == s[|s| - 1]
    ensures forall j :: 0 <= j < |r| && j != i ==> r[j] == s[j]
  {
    var last := |s| - 1;
    if i == last then s[..i]
    else s[..i] + [s[last]] + s[i + 1..last]
  }

  /** `swap_remove` removes exactly one occurrence of the element at `i`. */
  lemma SwapRemoveMultiset<T>(s: seq<T>, i: nat)
    requires i < |s|
    ensures multiset(SwapRemove(s, i)) == multiset(s) - multiset{s[i]}
  {
    var last := |s| - 1;
    if i == last {
      assert s == s[..i] + [s[i]];
    } else {
      assert s == s[..i] + [s[i]] + s[i + 1..last] + [s[last]];
    }
  }

  /** The notes on a channel other than `c`. */
  function OnOtherChannel(c: u8): ActiveNote -> bool {
    (an: ActiveNote) => an.channel != c
  }

  /** The notes on channel `c`. */
  function OnChannel(c: u8): ActiveNote -> bool {
    (an: ActiveNote) => an.channel == c
  }

  /** A note event with this velocity and type switches its note off. */
  predicate IsRelease(e: Event)
    requires e.NoteOn? || e.NoteOff?
  {
    e.velocity == 0 || e.NoteOff?
  }

  /** The active list after one input event; it grows by at most one note. */
  function Track(active: seq<ActiveNote>, e: Event): (r: seq<ActiveNote>)
    ensures |r| <= |active| + 1
  {
    if e.NoteOn? || e.NoteOff? then
      var thisNote := ActiveNote(e.channel, e.note);
      match Position(active, thisNote)
      case Some(i) => if IsRelease(e) then SwapRemove(active, i) else active
      case None => if IsRelease(e) then active else active + [thisNote]
    else if e.Controller? && e.param == AllNotesOff then
      Retained(active, OnOtherChannel(e.channel))
    else
      active
  }

  /** The velocity-0 NoteOffs synthesised for channel `c`, one per active
      note on that channel, in active-list order. */
  function Released(active: seq<ActiveNote>, c: u8): (r: seq<Event>)
    ensures |r| <= |active|
    ensures forall k :: 0 <= k < |r| ==> r[k].NoteOff? && r[k].channel == c && r[k].velocity == 0
    decreases |active|
  {
    if active == [] then []
    else
      var an := active[|active| - 1];
      Released(active[..|active| - 1], c)
        + (if an.channel == c then [NoteOff(an.channel, an.note, 0)] else [])
  }

  /** `Released` over a prefix one note longer. */
  lemma ReleasedSnoc(active: seq<ActiveNote>, j: nat, c: u8)
    requires j < |active|
    ensures Released(active[..j + 1], c)
      == Released(active[..j], c)
         + (if active[j].channel == c then [NoteOff(active[j].channel, active[j].note, 0)] else [])
  {
    assert active[..j + 1][..j] == active[..j];
  }

  /** The output one input event contributes: the releases it triggers,
      then the event itself. */
  function StepOut(active: seq<ActiveNote>, e: Event): seq<Event> {
    (if e.Controller? && e.param == AllNotesOff then Released(active, e.channel) else []) + [e]
  }

  /** EmulateANO's handling of one event: the active list after it and
      the output it contributes. */
  function AnoStep(active: seq<ActiveNote>, e: Event): (seq<ActiveNote>, seq<Event>) {
    (Track(active, e), StepOut(active, e))
  }

  /** One call of EmulateANO's `process`: the active list after the batch
      and the batch it leaves behind, never shorter than the input. */
  function AnoBatch(active: seq<ActiveNote>, events: seq<Event>): (r: (seq<ActiveNote>, seq<Event>))
    ensures |r.1| >= |events|
  {
    AnoStepForwards();
    FoldForwardsAll(AnoStep, active, events);
    Fold(AnoStep, active, events)
  }

  /** A synthesised release for the All Notes Off controller `trigger`. */
  predicate ReleaseFor(synth: Event, trigger: Event) {
    && trigger.Controller? && trigger.param == AllNotesOff
    && synth.NoteOff? && synth.channel == trigger.channel && synth.velocity == 0
  }

  /** The releases for channel `c` are exactly one velocity-0 NoteOff per
      active note on `c`, in active-list order. */
  lemma {:induction false} ReleasedMatchesActive(active: seq<ActiveNote>, c: u8)
    ensures var on := Retained(active, OnChannel(c));
      && |Released(active, c)| == |on|
      && forall k :: 0 <= k < |on| ==> Released(active, c)[k] == NoteOff(c, on[k].note, 0)
    decreases |active|
  {
    if active != [] {
      ReleasedMatchesActive(active[..|active| - 1], c);
    }
  }

  /** Each event is forwarded last in its own contribution, after nothing
      but the releases it triggers. */
  lemma AnoStepForwards()
    ensures Forwards(AnoStep)
    ensures InsertsOnly(AnoStep, ReleaseFor)
  {
    forall active, e
      ensures |AnoStep(active, e).1| > 0 && AnoStep(active, e).1[|AnoStep(active, e).1| - 1] == e
    {
    }
    forall active, e, k | 0 <= k < |AnoStep(active, e).1| - 1
      ensures ReleaseFor(AnoStep(active, e).1[k], e)
    {
      if e.Controller? && e.param == AllNotesOff {
        ReleasedMatchesActive(active, e.channel);
      }
    }
  }

  /** Where the `i`-th input event sits in the output batch. Every input
      event is forwarded exactly once and in input order, the last output
      is the last input, and every other output element is a velocity-0
      NoteOff placed, with only other such releases around it, right
      before the All Notes Off controller on its channel that caused it. */
  lemma AnoOutputLayout(active: seq<ActiveNote>, events: seq<Event>, i: nat, k: int)
    requires i < |events|
    ensures var idx, out := Placement(AnoStep, active, events), AnoBatch(active, events).1;
      && |idx| == |events|
      && 0 <= idx[i] < |out| && out[idx[i]] == events[i]
      && (i + 1 < |idx| ==> idx[i] < idx[i + 1])
      && idx[|idx| - 1] == |out| - 1
      && (0 <= GapStart(idx, i) <= k < idx[i] ==> ReleaseFor(out[k], events[i]))
  {
    AnoStepForwards();
    PlacementForwards(AnoStep, active, events);
    var idx := Placement(AnoStep, active, events);
    if 0 <= GapStart(idx, i) <= k < idx[i] {
      PlacementGapAt(AnoStep, ReleaseFor, active, events, i, k);
    }
  }

  /** The releases right before the `i`-th input event are exactly those
      for the notes active when it arrives: for an All Notes Off
      controller one velocity-0 NoteOff per active note on its channel,
      in active-list order, and for any other event none. */
  lemma GapIsReleased(active: seq<ActiveNote>, events: seq<Event>, i: nat)
    requires i < |events|
    ensures var idx, out := Placement(AnoStep, active, events), AnoBatch(active, events).1;
      && 0 <= GapStart(idx, i) <= idx[i] < |out|
      && out[GapStart(idx, i)..idx[i]]
         == if events[i].Controller? && events[i].param == AllNotesOff
            then Released(AnoBatch(active, events[..i]).0, events[i].channel)
            else []
  {
    AnoStepForwards();
    FoldGap(AnoStep, active, events, i);
    var pre := AnoBatch(active, events[..i]);
    var contrib := StepOut(pre.0, events[i]);
    assert contrib[..|contrib| - 1]
      == if events[i].Controller? && events[i].param == AllNotesOff then Released(pre.0, events[i].channel) else [];
  }

  // ---------------------------------------------------------------------
  // Properties of the active list

  /** An event never makes a pair appear twice in the active list: a note
      is appended only when `position` found it absent. */
  lemma TrackKeepsDistinct(active: seq<ActiveNote>, e: Event)
    requires Distinct(active)
    ensures Distinct(Track(active, e))
  {
    if e.NoteOn? || e.NoteOff? {
      var thisNote := ActiveNote(e.channel, e.note);
      var pos := Position(active, thisNote);
      if pos.None? && !IsRelease(e) {
        assert multiset(active + [thisNote]) == multiset(active) + multiset{thisNote};
      } else if pos.Some? && IsRelease(e) {
        SwapRemoveMultiset(active, pos.value);
      }
    } else if e.Controller? && e.param == AllNotesOff {
      RetainedSubMultiset(active, OnOtherChannel(e.channel));
    }
  }

  /** The only note an event can add to the active list is the pair of a
      NoteOn; every other note after the event was active before it. */
  lemma TrackOnlyAdds(active: seq<ActiveNote>, e: Event)
    ensures forall an :: an in Track(active, e) ==> an in active || (e.NoteOn? && an == ActiveNote(e.channel, e.note))
  {
    if e.NoteOn? || e.NoteOff? {
      var thisNote := ActiveNote(e.channel, e.note);
      var pos := Position(active, thisNote);
      if pos.Some? && IsRelease(e) {
        var r := SwapRemove(active, pos.value);
        forall an | an in r ensures an in active {
          var j :| 0 <= j < |r| && r[j] == an;
          if j == pos.value { assert an == active[|active| - 1]; } else { assert an == active[j]; }
        }
      }
    } else if e.Controller? && e.param == AllNotesOff {
      RetainedMembers(active, OnOtherChannel(e.channel));
    }
  }

  /** A NoteOn with a non-zero velocity adds its pair when it is absent and
      otherwise leaves the list as it was. */
  lemma NoteOnTracked(active: seq<ActiveNote>, e: Event)
    requires e.NoteOn? && e.velocity > 0
    ensures var p := ActiveNote(e.channel, e.note);
      Track(active, e) == if p in active then active else active + [p]
  {
  }

  /** A NoteOff, or a NoteOn with velocity 0, removes its pair when it is
      present (the other pairs stay) and is a no-op when it is absent. */
  lemma NoteReleased(active: seq<ActiveNote>, e: Event)
    requires Distinct(active)
    requires e.NoteOff? || (e.NoteOn? && e.velocity == 0)
    ensures var p := ActiveNote(e.channel, e.note);
      && p !in Track(active, e)
      && multiset(Track(active, e)) == multiset(active) - multiset{p}
      && (p !in active ==> Track(active, e) == active)
  {
    var p := ActiveNote(e.channel, e.note);
    if p in active {
      SwapRemoveMultiset(active, Position(active, p).value);
      assert multiset(active)[p] == 1;
    }
  }

  /** After All Notes Off on channel `c` no active note is on `c`, and the
      notes on the other channels stay, in the same order. */
  lemma AllNotesOffTracked(active: seq<ActiveNote>, e: Event)
    requires e.Controller? && e.param == AllNotesOff
    ensures Track(active, e) == Retained(active, OnOtherChannel(e.channel))
    ensures forall an :: an in Track(active, e) ==> an.channel != e.channel
    ensures forall an :: an in active && an.channel != e.channel ==> an in Track(active, e)
  {
  }

  /** Controllers other than 123 and every other event type leave the
      active list unchanged. */
  lemma OthersUntracked(active: seq<ActiveNote>, e: Event)
    requires !e.NoteOn? && !e.NoteOff?
    requires !(e.Controller? && e.param == AllNotesOff)
    ensures Track(active, e) == active
  {
  }

  /** A batch one event longer is one more `AnoStep`. */
  lemma AnoBatchSnoc(active: seq<ActiveNote>, events: seq<Event>, i: nat)
    requires i < |events|
    ensures var prev := AnoBatch(active, events[..i]);
      && AnoBatch(active, events[..i + 1]).0 == Track(prev.0, events[i])
      && AnoBatch(active, events[..i + 1]).1 == prev.1 + StepOut(prev.0, events[i])
      && events[..i + 1] == events[..i] + [events[i]]
  {
    assert events[..i + 1] == events[..i] + [events[i]];
    FoldSnoc(AnoStep, active, events[..i], events[i]);
  }

  /** One more event of the batch: what it contributes extends the output
      so far, and the output still equals the input while nothing has been
      synthesised. */
  lemma ProcessStep(start: seq<ActiveNote>, events: seq<Event>, i: nat, newEvents: seq<Event>, releases: seq<Event>, injected: bool)
    requires i < |events|
    requires newEvents == AnoBatch(start, events[..i]).1
    requires injected || newEvents == events[..i]
    requires releases + [events[i]] == StepOut(AnoBatch(start, events[..i]).0, events[i])
    ensures AnoBatch(start, events[..i + 1]).0 == Track(AnoBatch(start, events[..i]).0, events[i])
    ensures newEvents + releases + [events[i]] == AnoBatch(start, events[..i + 1]).1
    ensures injected || releases != [] || newEvents + releases + [events[i]] == events[..i + 1]
  {
    AnoBatchSnoc(start, events, i);
  }

  /** The active list stays free of duplicates over a whole batch. */
  lemma {:induction false} AnoBatchKeepsDistinct(active: seq<ActiveNote>, events: seq<Event>)
    requires Distinct(active)
    ensures Distinct(AnoBatch(active, events).0)
    decreases |events|
  {
    if events != [] {
      var init, e := events[..|events| - 1], events[|events| - 1];
      assert events == init + [e];
      FoldSnoc(AnoStep, active, init, e);
      AnoBatchKeepsDistinct(active, init);
      TrackKeepsDistinct(AnoBatch(active, init).0, e);
    }
  }

  /** Processing two batches one after the other is processing their
      concatenation: the state carries over and the outputs concatenate. */
  lemma AnoBatchAppend(active: seq<ActiveNote>, s: seq<Event>, t: seq<Event>)
    ensures var first := AnoBatch(active, s);
      var second := AnoBatch(first.0, t);
      AnoBatch(active, s + t) == (second.0, first.1 + second.1)
  {
    FoldAppend(AnoStep, active, s, t);
  }

  /** The output is never shorter than the input, and if nothing was
      synthesised the batch is left exactly as it was. */
  lemma NoSynthesisUnchanged(active: seq<ActiveNote>, events: seq<Event>)
    ensures |AnoBatch(active, events).1| >= |events|
    ensures |AnoBatch(active, events).1| == |events| ==> AnoBatch(active, events).1 == events
  {
    AnoStepForwards();
    FoldForwardsAll(AnoStep, active, events);
  }

  // ---------------------------------------------------------------------
  // The filters themselves

  /** EmulateANO: the list of active notes it updates in place. */
  class EmulateAno {
    var active: seq<ActiveNote>

    ghost predicate Valid()
      reads this
    {
      Distinct(active)
    }

    constructor ()
      ensures Valid() && active == []
    {
      active := [];
    }

    /** A velocity-0 NoteOff for every active note on channel `c`, in
        active-list order. */
    method ReleasesOn(c: u8) returns (releases: seq<Event>)
      ensures releases == Released(active, c)
    {
      releases := [];
      for j := 0 to |active|
        invariant releases == Released(active[..j], c)
      {
        var an := active[j];
        ReleasedSnoc(active, j, c);
        if an.channel == c {
          releases := releases + [NoteOff(an.channel, an.note, 0)];
        }
      }
      assert active[..|active|] == active;
    }

    /** The handling of one event of the batch: updates the active list
        and returns the releases to insert before the event. */
    method Observe(ev: Event) returns (releases: seq<Event>)
      modifies this
      ensures active == Track(old(active), ev)
      ensures releases + [ev] == StepOut(old(active), ev)
    {
      releases := [];
      if ev.NoteOn? || ev.NoteOff? {
        var isOff := ev.velocity == 0 || ev.NoteOff?;
        var thisNote := ActiveNote(ev.channel, ev.note);
        var existing := Position(active, thisNote);
        if isOff {
          if existing.Some? {
            active := SwapRemove(active, existing.value);
          }
        } else if existing.None? {
          active := active + [thisNote];
        }
      } else if ev.Controller? {
        if ev.param == AllNotesOff {
          releases := ReleasesOn(ev.channel);
          active := Retain(active, OnOtherChannel(ev.channel));
        }
      }
    }

    /** Tracks the notes of the batch and inserts the releases for every
        All Notes Off controller right before it. The batch is replaced
        only when a release was inserted. */
    method Process(events: seq<Event>) returns (out: seq<Event>)
      requires Valid()
      modifies this
      ensures Valid()
      ensures (active, out) == AnoBatch(old(active), events)
    {
      ghost var start := active;
      var newEvents: seq<Event> := [];
      var injected := false;
      for i := 0 to |events|
        invariant active == AnoBatch(start, events[..i]).0
        invariant newEvents == AnoBatch(start, events[..i]).1
        invariant injected || newEvents == events[..i]
      {
        var ev := events[i];
        var releases := Observe(ev);
        ProcessStep(start, events, i, newEvents, releases, injected);
        injected := injected || releases != [];
        newEvents := newEvents + releases + [ev];
      }
      assert events[..|events|] == events;
      AnoBatchKeepsDistinct(start, events);
      out := if injected then newEvents else events;
    }
  }

  /** A filter instance of the chain. */
  datatype Filter = IgnoreSense | IgnoreClock | Emulate(ano: EmulateAno) {

    /** The registry name the filter is created under. */
    function Name(): string {
      match this
      case IgnoreSense => "ignore_sense"
      case IgnoreClock => "ignore_clock"
      case Emulate(_) => "emulate_ano"
    }

    ghost function Footprint(): set<EmulateAno> {
      if Emulate? then {ano} else {}
    }

    ghost predicate Valid()
      reads Footprint()
    {
      Emulate? ==> ano.Valid()
    }

    /** The filter's abstract value. */
    ghost function State(): FilterState
      reads Footprint()
    {
      match this
      case IgnoreSense => SenseState
      case IgnoreClock => ClockState
      case Emulate(ano) => AnoState(ano.active)
    }
  }

  /** The abstract value of a filter: its kind and, for EmulateANO, the
      active-note list. */
  datatype FilterState = SenseState | ClockState | AnoState(active: seq<ActiveNote>)

  /** What one `process` call does to a filter's state and to the batch. */
  function Apply(st: FilterState, events: seq<Event>): (FilterState, seq<Event>) {
    match st
    case SenseState => (st, Retained(events, NotSensing))
    case ClockState => (st, Retained(events, NotClock))
    case AnoState(active) =>
      var (active', out) := AnoBatch(active, events);
      (AnoState(active'), out)
  }

  /** One `process` call on a filter of either kind. */
  method Process(f: Filter, events: seq<Event>) returns (out: seq<Event>)
    requires f.Valid()
    modifies f.Footprint()
    ensures f.Valid()
    ensures (f.State(), out) == Apply(old(f.State()), events)
  {
    match f
    case IgnoreSense => out := Retain(events, NotSensing);
    case IgnoreClock => out := Retain(events, NotClock);
    case Emulate(ano) => out := ano.Process(events);
  }

  /** IgnoreSense and IgnoreClock keep exactly the events of the other
      types, in their order, and applying one twice is applying it once. */
  lemma IgnoreFilters(events: seq<Event>)
    ensures forall e :: e in Apply(SenseState, events).1 <==> e in events && !e.Sensing?
    ensures forall e :: e in Apply(ClockState, events).1 <==> e in events && !e.Clock?
    ensures Apply(SenseState, Apply(SenseState, events).1) == Apply(SenseState, events)
    ensures Apply(ClockState, Apply(ClockState, events).1) == Apply(ClockState, events)
  {
    RetainedMembers(events, NotSensing);
    RetainedMembers(events, NotClock);
    RetainedIdempotent(events, NotSensing);
    RetainedIdempotent(events, NotClock);
  }

  // ---------------------------------------------------------------------
  // The registry

  /** The names the registry recognises. */
  predicate Known(name: string) {
    name == "ignore_sense" || name == "ignore_clock" || name == "emulate_ano"
  }

  /** The state of a filter freshly created under `name`, if the registry
      knows the name. */
  function Initial(name: string): (r: Option<FilterState>)
    ensures r.Some? <==> Known(name)
  {
    match name
    case "ignore_sense" => Some(SenseState)
    case "ignore_clock" => Some(ClockState)
    case "emulate_ano" => Some(AnoState([]))
    case _ => None
  }

  /** A fresh filter for a known name, an error for any other. */
  method New(name: string) returns (r: Result<Filter>)
    ensures r.Success? <==> Known(name)
    ensures r.Success? ==> r.value.Name() == name && r.value.Valid()
    ensures r.Success? ==> Initial(name) == Some(r.value.State())
    ensures r.Success? && r.value.Emulate? ==> fresh(r.value.ano)
    ensures r.Failure? ==> r.error == "unknown filter: '" + name + "'"
  {
    match name
    case "ignore_sense" => r := Success(IgnoreSense);
    case "ignore_clock" => r := Success(IgnoreClock);
    case "emulate_ano" =>
      var ano := new EmulateAno();
      r := Success(Emulate(ano));
    case _ => r := Failure("unknown filter: '" + name + "'");
  }
}
