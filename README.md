# midiroute core, modelled in Dafny

midiroute routes MIDI events between ALSA sequencer ports. A *pipeline*
connects a source port to a sink port. On every *tick* it reads one event
from the source, passes it as a one-element batch through an ordered chain
of *filters*, and sends what comes out to the sink, counting events taken in
(`ingested`) and events written out (`delivered`). Filters come from a small
*registry* keyed by name:

- `ignore_sense` drops Active Sensing events;
- `ignore_clock` drops Clock events;
- `emulate_ano` remembers the sounding `(channel, note)` pairs and, when an
  All Notes Off controller (controller 123, a channel mode message of the
  MIDI 1.0 Detailed Specification) arrives, inserts a velocity-0 NoteOff for
  every sounding note of that channel right before the controller, then
  forgets those notes.

Devices and routes come from a JSON configuration file. The reader keeps
only well-formed devices and routes, and only the string members of list
fields.

The model has seven modules, one file each:

| file | module | models |
|---|---|---|
| `wrappers.dfy` | `Wrappers` | `Option`, `Result<T, String>` and `Result<(), String>` |
| `seqs.dfy` | `Seqs` | `Vec::retain` (`Retained`, `Retain`) and `Iterator::filter_map` (`FilterMap`) |
| `events.dfy` | `Events` | sequencer events, reduced to their type and note or controller data |
| `folds.dfy` | `Folds` | a stateful transducer run over a sequence, and where its inputs land in its output |
| `filters.dfy` | `Filters` | `src/pipeline/filters.rs`: the three filters and the registry |
| `pipeline.dfy` | `Pipelines` | `src/pipeline.rs`: the filter chain, `Pipeline::new`'s filter list, `run`, `get_status` |
| `config.dfy` | `ConfigFile` | `src/config.rs`: records, field helpers, `Config::read` after parsing, `get_device` |

## How the code is modelled

**Filters.** `EmulateANO` updates its list in place, so it is a class,
`Filters.EmulateAno`, with a field `active: seq<ActiveNote>`. Its `Process`
method has the source's loop. Each step goes through `Observe`, which does
the `position` / `swap_remove` / `push` / `retain` updates, and
`ReleasesOn`, which is the loop that builds the NoteOffs. `Process` is
proved equal to the function `AnoBatch`, a fold of the one-event step
`AnoStep`. The properties of the filter are lemmas about that function.

The stateless filters and the boxed trait object become the datatype
`Filter`, whose `State()` is an abstract `FilterState`. `Filters.Process`
calls the right implementation and is proved equal to `Apply` on states.

**Pipeline.** `Pipelines.Pipeline` is a class with fields `filters`,
`ingested` and `delivered`. Its constructor builds the filter list the way
`filter_map` / `collect` does, and `Run` is one tick. The filter loop
(`ApplyFilters` / `ApplyOne`) and the send loop (`Deliver`) are separate
methods. Everything the sequencer would answer during a tick is a parameter
of `Run`:

- the pending-input poll, as `Result<nat>`;
- the read, as `Result<Event>`;
- the outcome of each send, in order; sends beyond the list succeed.

**Config.** The configuration code is pure, so it is modelled with
functions over a parsed JSON value. Indexing anything but an object, or an
object without the key, gives `null`, and `members()` of anything but an
array is empty, as in the `json` crate.

**Three points about the code's behaviour, which the model follows:**

- The active notes are an ordered list, not a set. `swap_remove` moves the
  last note into the removed note's slot, and the synthesised NoteOffs come
  out in the list's order at the time of the controller (`Released`,
  `ReleasedMatchesActive`).
- The synthesised NoteOffs are placed *before* the controller that caused
  them (src/pipeline/filters.rs:58 pushes them, line 67 then pushes the
  event).
- Unknown filter names are dropped silently when the pipeline is built.
  They are not reported.

## Model

| member | source | states |
|---|---|---|
| Seqs.Retain | src/pipeline/filters.rs:8 | the in-place `retain` loop leaves exactly `Retained(s, keep)`: the accepted elements in their original order |
| Seqs.RetainedMembers | src/pipeline/filters.rs:8 | an element survives `retain` if and only if it was in the input and the predicate accepts it |
| Seqs.RetainedAppend | src/pipeline/filters.rs:16 | retaining distributes over concatenation, so survivors keep their relative order |
| Seqs.RetainedIdempotent | src/pipeline/filters.rs:7-9 | retaining twice with the same predicate equals retaining once |
| Seqs.RetainedAllKept | src/pipeline/filters.rs:62 | when the predicate accepts every element, `retain` changes nothing |
| Seqs.RetainedSubMultiset | src/pipeline/filters.rs:62 | `retain` never duplicates an element: the result is a sub-multiset of the input |
| Seqs.FilterMapMembers | src/config.rs:49-62 | a value is collected if and only if the closure returns `Some` of it for some input element |
| Seqs.FilterMapAppend | src/pipeline.rs:71-78 | `filter_map`/`collect` distributes over concatenation, so kept values are in input order |
| Seqs.FilterMapAllSome | src/config.rs:26-30 | when the closure returns `Some` for every element, nothing is dropped and the i-th value comes from the i-th element |
| Folds.FoldAppend | src/pipeline/filters.rs:31-68 | running the per-event step over `s + t` is running it over `s`, then over `t` from the resulting state, with the outputs concatenated |
| Folds.PlacementForwards | src/pipeline/filters.rs:67 | if each step emits its input last, every input element appears in the output at an index, the indices strictly increase, and the last output is the last input |
| Folds.PlacementGapAt | src/pipeline/filters.rs:49-67 | every output between two forwarded inputs is an extra emitted by the step of the later one |
| Folds.PlacementPrefix | src/pipeline/filters.rs:67 | the i-th input lands at the last position of the output of the first i + 1 inputs |
| Folds.PlacementSlice | src/pipeline/filters.rs:31-68 | the output of the i-th input's step begins right after the output of the first i inputs, ends with that input, and stands unchanged in the output of the whole batch |
| Folds.FoldGap | src/pipeline/filters.rs:49-67 | in a forwarding fold, the outputs right before the i-th input are exactly what its step emitted ahead of it |
| Folds.FoldForwardsAll | src/pipeline/filters.rs:69-73 | the output is at least as long as the input, and exactly as long only when it equals the input |
| Filters.Position | src/pipeline/filters.rs:38 | `position` finds the first index holding the note, or none exactly when the note is absent |
| Filters.SwapRemove | src/pipeline/filters.rs:40 | `swap_remove` shortens the list by one, puts the last element at the removed index, and leaves every other index holding its element |
| Filters.SwapRemoveMultiset | src/pipeline/filters.rs:40 | `swap_remove` removes exactly one occurrence of the element at the index and keeps all others |
| Filters.Track | src/pipeline/filters.rs:32-65 | the active list after one event grows by at most one note; `TrackOnlyAdds`, `NoteOnTracked`, `NoteReleased`, `AllNotesOffTracked` and `OthersUntracked` give its effect per event kind |
| Filters.TrackOnlyAdds | src/pipeline/filters.rs:36-62 | the only note an event can add to the active list is the pair of a NoteOn; every other note after the event was active before it |
| Filters.Released | src/pipeline/filters.rs:49-61 | the synthesised events for channel c are velocity-0 NoteOffs on c, at most one per active note; `ReleasedMatchesActive` gives the exact list |
| Filters.AnoBatch | src/pipeline/filters.rs:28-74 | one `process` call as a fold of the per-event step: the output batch is never shorter than the input; `AnoOutputLayout`, `GapIsReleased`, `AnoBatchAppend`, `AnoBatchKeepsDistinct` and `NoSynthesisUnchanged` characterise it |
| Filters.ReleasedMatchesActive | src/pipeline/filters.rs:49-61 | the NoteOffs for a channel are exactly one velocity-0 NoteOff per active note on that channel, in active-list order |
| Filters.AnoStepForwards | src/pipeline/filters.rs:45-67 | each event is emitted last in its own contribution, and everything before it is a velocity-0 NoteOff on its channel caused by an All Notes Off controller |
| Filters.AnoOutputLayout | src/pipeline/filters.rs:49-67 | every input event appears in the output exactly where `Placement` puts it, in input order, the last output is the last input, and every other output is a velocity-0 NoteOff placed right before the All Notes Off controller on its channel |
| Filters.GapIsReleased | src/pipeline/filters.rs:49-67 | the output right before the i-th input event is exactly one velocity-0 NoteOff per note active when it arrives on its channel, in active-list order, if it is an All Notes Off controller, and nothing otherwise |
| Filters.TrackKeepsDistinct | src/pipeline/filters.rs:38-43 | no event makes a `(channel, note)` pair appear twice, because a note is pushed only when `position` did not find it |
| Filters.NoteOnTracked | src/pipeline/filters.rs:36-43 | a NoteOn with velocity above 0 appends its pair when absent and otherwise leaves the list unchanged |
| Filters.NoteReleased | src/pipeline/filters.rs:36-40 | a NoteOff, or a NoteOn with velocity 0, removes its pair (and only it) when present, and is a no-op when absent |
| Filters.AllNotesOffTracked | src/pipeline/filters.rs:47-62 | after All Notes Off on channel c no active note is on c, and the notes on other channels stay in order |
| Filters.OthersUntracked | src/pipeline/filters.rs:45-65 | controllers other than 123 and all other event types leave the active list unchanged |
| Filters.AnoBatchKeepsDistinct | src/pipeline/filters.rs:31-68 | a whole batch keeps the active list free of duplicate pairs |
| Filters.AnoBatchAppend | src/pipeline/filters.rs:28-74 | processing two batches in turn equals processing their concatenation: the state carries over and the outputs concatenate |
| Filters.NoSynthesisUnchanged | src/pipeline/filters.rs:69-73 | the output is never shorter than the input, and when no NoteOff was synthesised the batch is exactly the input |
| Filters.EmulateAno.constructor | src/pipeline/filters.rs:82 | a new emulator starts with an empty active list |
| Filters.EmulateAno.ReleasesOn | src/pipeline/filters.rs:49-61 | the loop over the active list yields exactly the releases for the channel |
| Filters.EmulateAno.Observe | src/pipeline/filters.rs:32-67 | one event updates the active list by `Track` and contributes its releases, then itself |
| Filters.EmulateAno.Process | src/pipeline/filters.rs:28-74 | the new active list and the batch left behind are `AnoBatch` of the old list and the input, and the list stays duplicate-free |
| Filters.Process | src/pipeline/filters.rs:5-74 | a `process` call on any filter changes only that filter's own state, and matches `Apply` on the filter's abstract state |
| Filters.IgnoreFilters | src/pipeline/filters.rs:5-18 | IgnoreSense and IgnoreClock keep exactly the events of other types, and applying one twice equals applying it once |
| Filters.Initial | src/pipeline/filters.rs:78-85 | the registry knows a name if and only if it gives that name an initial state |
| Filters.New | src/pipeline/filters.rs:78-85 | `new` succeeds exactly for the three known names, with a valid filter of that name in its initial state (a newly allocated emulator for `emulate_ano`), and otherwise fails with "unknown filter: '<name>'" |
| Pipelines.RunChain | src/pipeline.rs:110-112 | running the chain gives one new state per filter; `RunChainStep` states that each filter takes the previous one's output, and `RunChainAppend` and `RunChainKeepsKinds` characterise the rest |
| Pipelines.RunChainStep | src/pipeline.rs:110-111 | the chain up to filter k + 1 runs filter k on the output of the chain up to filter k, updating only its state |
| Pipelines.RunChainAppend | src/pipeline.rs:110-112 | running two chains in turn equals running their concatenation, each filter taking the previous one's output |
| Pipelines.RunChainKeepsKinds | src/pipeline.rs:110-112 | running the chain never changes a filter's kind |
| Pipelines.Delivered | src/pipeline.rs:114-119 | the number of sends before the first failure: all of them succeed, and the next one (if any is due) fails |
| Pipelines.BuildFilters | src/pipeline.rs:71-78 | the filter list holds one filter per recognised name, in configured order, each in its initial state; unknown names are dropped; no two filters share state |
| Pipelines.AddFilter | src/pipeline.rs:72-77 | one `filter_map` step appends the registry's filter for a known name and nothing for an unknown one |
| Pipelines.ApplyFilters | src/pipeline.rs:108-112 | the batch goes through every filter in list order, each taking the previous one's output, and the filters' new states are those of `RunChain` |
| Pipelines.ApplyOne | src/pipeline.rs:110-111 | one filter call moves the fold one filter further, and every other filter keeps its state |
| Pipelines.ChainStep | src/pipeline.rs:110-111 | a call on one filter of a chain whose filters share no state leaves the others' states and validity as they were |
| Pipelines.Pipeline.constructor | src/pipeline.rs:71-89 | a new pipeline has the filter list of `BuildFilters` and `ingested == 0 && delivered == 0` |
| Pipelines.Pipeline.Status | src/pipeline.rs:123-125 | `get_status` returns `(ingested, delivered)` and reads only the counters |
| Pipelines.Pipeline.Run | src/pipeline.rs:92-121 | a failed poll or read returns the prefixed error with counters and filters unchanged, no pending input returns `Ok(false)` with nothing changed, and otherwise `ingested` rises by 1, the event is folded through the chain, the batch is sent in order up to the first failed send, `delivered` rises by the number sent, and the result is `Ok(true)` or that send's prefixed error |
| Pipelines.Pipeline.Deliver | src/pipeline.rs:114-120 | the send loop raises `delivered` once per successful send, stops at the first failure and sends nothing after it |
| ConfigFile.StringOpt | src/config.rs:23-25 | an optional field is present exactly when its value is a string, and is that string |
| ConfigFile.StringVec | src/config.rs:26-30 | a list field has at most one entry per array member, and every entry is a string member of the array; `StringVecMembers` gives the converse |
| ConfigFile.StringVecMembers | src/config.rs:26-30 | a list field holds exactly the strings among the array members; an array of strings only is kept whole and in order |
| ConfigFile.ParseDevice | src/config.rs:50-61 | a device entry is kept exactly when `name` is a string; `name` is that string, `input`/`output` are present exactly when those fields are strings and then equal them, and `features`, `input_filters` and `output_filters` are the string members of those arrays |
| ConfigFile.Named | src/config.rs:74-75 | the `any` check of a route's device names: some device has the name; `FindNamed` and `GetDevice` return none exactly when it fails |
| ConfigFile.ParseRoute | src/config.rs:68-83 | a route entry is kept exactly when `enabled` is a bool, `source` and `sink` are strings, and both name a kept device, with the fields copied over |
| ConfigFile.Read | src/config.rs:46-90 | the result is the `devices` error when `devices` is not an array, else the `routes` error when `routes` is not an array, else a config with the filename and at most one device/route per entry |
| ConfigFile.ReadDevices | src/config.rs:49-62 | the devices are exactly those parsed from entries with a string name, and when every entry has one none is dropped and the i-th device is the record parsed from the i-th entry |
| ConfigFile.ReadRoutes | src/config.rs:67-84 | every kept route names two kept devices, and the routes are exactly the entries that parse against the kept devices |
| ConfigFile.FindNamed | src/config.rs:94 | the index of the first device with the name, or none exactly when no device has it |
| ConfigFile.GetDevice | src/config.rs:93-95 | `get_device` returns the first device with the name, or none exactly when there is none |

## Left out

- ALSA sequencer plumbing is not modelled: opening the sequencer, naming the client and port, port creation, the two subscriptions (src/pipeline.rs:27-68) and the `Drop` unsubscription (src/pipeline.rs:128-133). It is a foreign library, and its effect on a tick is given to `Run` as parameters. With it goes src/pipeline.rs:65, which sets real-time stamping on the source subscription a second time where the sink subscription was evidently meant; no modelled behaviour depends on it.
- Failures of `Pipeline::new` are not modelled. They all come from the sequencer set-up above; the constructor models the filter list and the counters.
- Timestamps, queues, and the `duration`/`off_velocity` fields of a synthesised NoteOff are not modelled. They are transport fields the filters never read.
- `set_direct`/`set_subs` (src/pipeline.rs:104-105) are not modelled. `run` applies them only to the received event, before the filter loop. The NoteOffs that EmulateANO synthesises with `seq::Event::new` (src/pipeline/filters.rs:58) therefore reach `event_output_direct` (src/pipeline.rs:115) without either setting, while forwarded events carry both. The model's events have no such fields, so it cannot tell these two kinds of event apart.
- Reading the file and parsing JSON text in `Config::read` (src/config.rs:37-44) are not modelled. The model starts from the parsed value, and JSON numbers are kept abstract (`Num(int)`) because no field uses them.
- Malformed events are not modelled. The `get_data().unwrap()` panics (src/pipeline/filters.rs:35, 46) cannot occur, because a note or controller `Event` always carries its data.
- Pipelines.Pipeline.Run: `ingested` and `delivered` are unbounded, so the `u32` overflow of `+= 1` (src/pipeline.rs:106, 116) is not modelled.
- The `Filter` trait declares `process(&self, …)` (src/pipeline.rs:6), but the implementations take `&mut self`. The model lets each filter change its own state, as the implementations and `iter_mut` do.
- Batches are not updated in place. A filter takes the batch and returns the new one, and `EmulateAno.Process` returns its input unchanged when nothing was injected.
- Pipelines.BuildFilters: freshness of each emulator is stated only as "no two filters share state" (`ChainValid`), not as "allocated by this call".
- Filters.AnoOutputLayout: the output length is not stated as a separate count. It follows from the layout: every output position is either a forwarded input or a synthesised NoteOff.
- `src/main.rs` is not part of this model. It only lists sound cards and rawmidi devices, and it neither reads the configuration nor runs pipelines.
