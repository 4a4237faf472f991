# Events card and top-power card, modelled in Dafny

This project models the logic of two Home Assistant dashboard cards from
`hass-custom-cards`.

- **The events card** turns the state history of its configured entities into the
  list of events it shows.
  - `setConfig` normalises the `entities` list into the `entityConfig` map.
  - `firstUpdated` keeps the `'on'` samples, merges the entities' events and sorts
    them by descending timestamp.
  - It then makes one forward pass. This marks the first event of each day and folds
    an event of a configured `group` into its group's representative. An event is
    folded when it lies within 300 seconds of the representative's chain tail
    (`groupLastTs || ts`).
  - Finally it filters out the folded (`removed`) events.
- **The top-power card** ranks its circuits by their current power, keeps the first
  `limit` of them, and classifies each row. The classes are `total`, `idle`, `high`
  and `normal`. Each threshold is taken from the device, else the card, else a
  default.

Modules:

- `Wrappers`: `Option`.
- `Sorting`: the engine's stable `Array.prototype.sort` into descending key order,
  where an undefined key ranks lowest.
- `EventGrouping`: the grouping pass of `firstUpdated` as a function of its inputs.
  `Pass` is the state after `k` visits and `Final` the state after all of them. Its
  lemmas prove what the pass guarantees.
- `EventsCard`: the card as a class, with the event objects as a class `EventInfo`
  whose fields the pass writes in place. The methods follow the source's loops.
  The pass (`GroupAndMark`) is proved to leave every object carrying exactly the
  marks of `Final`.
- `TopPowerCard`: ranking and status.

Inputs the source gets from outside are parameters:

- `raw` is the history returned by the history call. It is absent when the call
  yields nothing (`|| {}`).
- `dayOf` is the day of the month of a timestamp, in local time.
- `readingOf` is the parsed power reading of an entity. `None` stands for a reading
  that parses to `NaN`.

The day flag is set on the list before the filter, as the code does. A folded event
can therefore carry the flag of its day, and the kept event shown after it then does
not. So it is not true of the shown list that an event is flagged exactly when its
day differs from the shown event before it. `EventGrouping.DayFlagOnFoldedEvent` is a
list on which this happens. The model follows the code here.

## Model

| member | source | states |
|---|---|---|
| EventsCard.EventsCard.constructor | src/cards/events-card.ts:59-61 | a new card has no configuration, an empty entity map and no events |
| EventsCard.EventsCard.SetConfig | src/cards/events-card.ts:63-73 | stores the configuration and rebuilds `entityConfig` as the map of the listed entries (one insertion per entry, in list order); the shown events are untouched |
| EventsCard.EntityDetailsOrId.AsDetails | src/cards/events-card.ts:67-71 | a bare id `e` stands for the record `{entity: e}` with no name, icon or group; a record stands for itself; the record's `entity` is the entry's id |
| EventsCard.ConfigMapKeys | src/cards/events-card.ts:66-72 | an id is a key of the entity map exactly when some entry lists it |
| EventsCard.ConfigMapLast | src/cards/events-card.ts:66-72 | the id of an entry that no later entry repeats maps to that entry's details: a later duplicate overwrites an earlier one |
| EventsCard.Ids | src/cards/events-card.ts:80 | the ids are the entries' ids, one per entry, in list order |
| EventsCard.IdsConfigured | src/cards/events-card.ts:80 | every id the history is asked for has an entry in the `entityConfig` built from the same configuration, so the lookup at line 118 finds a record unless `setConfig` runs during the history call |
| EventsCard.OnSamples | src/cards/events-card.ts:96-102 | an entity's events come only from its `'on'` samples and every `'on'` sample gives one; there are exactly as many events as `'on'` samples (`CountOn`), so never more than samples |
| EventsCard.OnSamplesConcat | src/cards/events-card.ts:96-102 | the events of two runs of samples are the first run's events followed by the second's, so the events keep the order of their samples |
| EventsCard.Gather | src/cards/events-card.ts:95-104 | an event exists exactly for an `'on'` sample of a listed entity that has an entry in the history; an entity without an entry contributes none; the number of events is the number of those `'on'` samples (`OnTotal`) |
| EventsCard.GatherConcat | src/cards/events-card.ts:95-104 | the entities are gathered in list order: the events of two lists of ids are the first list's events followed by the second's |
| EventsCard.PushSample | src/cards/events-card.ts:96-103 | pushes one new, unmarked event for an `'on'` sample and nothing otherwise; the existing events stay in place as a prefix, and the list stays free of duplicates |
| EventsCard.PushOnSamples | src/cards/events-card.ts:96-103 | appends exactly the events of the entity's `'on'` samples, in sample order, as new unmarked objects; the existing events stay in place as a prefix, and the list stays free of duplicates |
| EventsCard.CollectEvents | src/cards/events-card.ts:94-104 | the merged list holds the events of `Gather`, entity by entity, as distinct new objects whose day is `dayOf` of their timestamp |
| EventsCard.MarkFirstOfDay | src/cards/events-card.ts:112-115 | sets the day flag of the visited event and changes no other mark |
| EventsCard.Fold | src/cards/events-card.ts:124-128 | appends the event to the representative's `grouped`, moves the chain tail to its timestamp and flags it removed |
| EventsCard.GroupEvent | src/cards/events-card.ts:116-132 | folds the event when its group has a representative whose chain tail is within the window, and otherwise makes it the group's representative |
| EventsCard.VisitEvent | src/cards/events-card.ts:109-133 | one iteration leaves the objects, the representatives and `lastDay` as the specification's `Visit` does |
| EventsCard.GroupAndMark | src/cards/events-card.ts:107-133 | after the loop every event object carries exactly the marks of the whole pass (`Final`) |
| EventsCard.SortedView | src/cards/events-card.ts:105 | a list sorted by the objects' timestamps is sorted for the pass |
| EventsCard.KeptSurvivors | src/cards/events-card.ts:135 | the filter keeps exactly the events the pass did not remove, in list order |
| EventsCard.KeptTotal | src/cards/events-card.ts:124-135 | when the objects carry the marks of the pass, the `grouped` lengths of the kept objects add up to `SumGrouped` of the marks, so the facts proved about the marks carry over to the objects |
| EventsCard.Summarise | src/cards/events-card.ts:135 | the shown list is the list of surviving events, and its length plus its `grouped` lengths is the length of the sorted list |
| EventsCard.Aggregate | src/cards/events-card.ts:94-135 | collects the events of `Gather` as distinct new objects, sorts them by descending timestamp and marks them as `Final` says; keeps the unremoved ones in order; shown length plus `grouped` lengths equals the number of `'on'` samples collected (`OnTotal`) |
| EventsCard.EventsCard.FirstUpdated | src/cards/events-card.ts:79-136 | with the history call taken as one step, every event object carries the marks of `Final` on the sorted list of all `'on'` samples of the configured entities, and `events` becomes its surviving events; shown length plus `grouped` lengths equals the number of those samples; an absent history counts as empty; the configuration is untouched |
| EventGrouping.Visit | src/cards/events-card.ts:109-133 | a visit refers only to visited events, and changes no mark but the visited event's and, when its group is set, the mark of that group's current representative |
| EventGrouping.PassInvariant | src/cards/events-card.ts:107-133 | after every visit: unvisited events are unmarked, day flags and `lastDay` are as computed, representatives are kept and carry their group, folded events follow their representative in visiting order, share its group, are removed and have one owner, `groupLastTs` is the last folded timestamp, and the removed count equals the folded count |
| EventGrouping.FirstOfDay | src/cards/events-card.ts:108-115 | the first visited event is flagged; a later one is flagged exactly when its day differs from that of the event visited just before it |
| EventGrouping.Conservation | src/cards/events-card.ts:124-135 | kept events plus the events folded into them are all the events |
| EventGrouping.RemovedHaveOneOwner | src/cards/events-card.ts:124-128 | an event is removed exactly when it is in the `grouped` list of a kept event, and it is in one such list only |
| EventGrouping.UngroupedStandAlone | src/cards/events-card.ts:119-120 | an event without a non-empty group is never removed and never receives folded events |
| EventGrouping.GroupedInOrder | src/cards/events-card.ts:124-127 | folded events come after their representative, share its group, are listed in visiting order (so, on a sorted list, in descending time order), and `groupLastTs` is the timestamp of the last of them |
| EventGrouping.KeptInOrder | src/cards/events-card.ts:105-135 | the kept events stay in list order, hence in descending time order |
| EventGrouping.ChainRule | src/cards/events-card.ts:121-128 | the first event of a group is kept; a later one is folded exactly when the previous event of its group lies within the window before it (unless that event was folded with timestamp 0), and then joins the same representative: events each within the window of the previous one chain into one group |
| EventGrouping.DayFlagOnFoldedEvent | src/cards/events-card.ts:109-135 | on a three-event list the folded second event carries the day flag and the third, shown right after the first and on another day, carries none |
| Sorting.SortDesc | src/cards/events-card.ts:105 | the sort is a permutation of its input |
| Sorting.SortDescSorted | src/cards/events-card.ts:105 | the sorted list is in descending key order, undefined keys last |
| Sorting.SortDescStable | src/cards/events-card.ts:105 | elements with equal keys keep their relative order |
| Sorting.SortDescDistinct | src/cards/events-card.ts:105 | sorting distinct objects leaves them distinct |
| TopPowerCard.Entries | src/cards/top-power-card.ts:59-62 | one entry per circuit, in configuration order, with that circuit's reading |
| TopPowerCard.Splice | src/cards/top-power-card.ts:65 | `splice` never lengthens the list |
| TopPowerCard.SpliceToLimit | src/cards/top-power-card.ts:64-66 | with a positive limit, the splice keeps exactly the first `min(limit, n)` entries |
| TopPowerCard.PrefixOfSorted | src/cards/top-power-card.ts:63-66 | a prefix of the ranking is sorted, is part of it, and ranks no lower than what was cut off |
| TopPowerCard.RankedFromCircuits | src/cards/top-power-card.ts:59-66 | every ranked row is a configured circuit with its own reading |
| TopPowerCard.Rank | src/cards/top-power-card.ts:59-66 | the rows are the sorted entries truncated to `min(limit, n)` when `limit > 0` and all of them otherwise; they are in descending reading order, come from the circuits, and rank no lower than any row cut off |
| TopPowerCard.ThresholdFallback | src/cards/top-power-card.ts:88-89 | the threshold is the device's if set and non-zero, else the card's if set and non-zero, else the default; a 0 counts as unset, and a non-zero default gives a non-zero threshold |
| TopPowerCard.EntryStatus | src/cards/top-power-card.ts:86-93 | the total row is `total` whatever its value; a `NaN` reading is `idle`; otherwise `high` exactly above the high threshold, `idle` exactly below the idle threshold and not above the high one, and `normal` in between |

## Left out

- The history call and the start and end times of its window (`hass.callWS`) are network I/O. The history is a parameter.
- `Date`, `getDate()` in local time and the locale formatting are host behaviour. The day of the month is the parameter `dayOf`.
- Rendering (`render`, `renderEvent`, styles), row names, icons and the click handlers are presentation and DOM side effects.
- `parseFloat` and floating point are not modelled. A reading is an integer or `None` for `NaN`. Timestamps (`lu`) and `limit` are integers, though the source allows fractional ones.
- Sorting.SortDesc: the engine's sort is modelled as a stable sort on values. The in-place reordering of the array is not modelled. Ties keep their input order.
- TopPowerCard.Rank: the comparator `a.value > b.value ? -1 : 1` never returns 0 and is inconsistent for equal values and `NaN`. The model sorts by descending reading, with `NaN` last and ties in configuration order. The order an engine actually produces in those cases is not modelled.
- EventsCard.EventsCard.FirstUpdated: it requires a configuration. Without one the source throws when it maps the missing entity list.
- EventsCard.EventsCard.FirstUpdated: the `await` of the history call is taken as one step, with no `setConfig` in between. The ids are read before the call and `entityConfig` after it. A reconfiguration during the call can make the lookup at line 118 find no record, and reading its `group` then throws. The model does not cover that interleaving.
- EventsCard.EventInfo: the fields a source event lacks until the pass writes them (`isFirstOfDay`, `grouped`, `groupLastTs`, `removed`) start as `false`, `[]`, unset and `false`. They are not `undefined`, and the model behaves the same with these values.
- `src/cards/temperature-humidity-card.ts` is not part of this model. It only parses and rounds floating-point readings for display.
