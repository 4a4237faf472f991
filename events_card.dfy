/** The events card: its configuration map, and the aggregation that turns the
    per-entity history into the list of events it shows, grouped and marked by day. */
module EventsCard {
  import opened Wrappers
  import opened Sorting
  import opened EventGrouping

  /** Events of one group within this many seconds of the group's chain tail are folded. */
  const GroupingRange := 300

  // ---------------------------------------------------------------------------
  // Configuration

  datatype EntityDetails = EntityDetails(entity: string, name: Option<string>, icon: Option<string>,
                                         group: Option<string>)

  /** An entry of the `entities` list: a bare entity id or a details record. */
  datatype EntityDetailsOrId = Id(id: string) | Details(details: EntityDetails)
  {
    function EntityId(): string {
      match this
      case Id(id) => id
      case Details(d) => d.entity
    }

    /** A bare id `e` stands for the record `{entity: e}`. */
    function AsDetails(): (d: EntityDetails)
      ensures d.entity == EntityId()
      ensures this.Details? ==> d == this.details
      ensures this.Id? ==> d.name.None? && d.icon.None? && d.group.None?
    {
      match this
      case Id(id) => EntityDetails(id, None, None, None)
      case Details(d) => d
    }
  }

  /** The map `setConfig` builds: one insertion per entry, in list order. */
  function ConfigMap(entries: seq<EntityDetailsOrId>): map<string, EntityDetails> {
    if entries == [] then map[]
    else
      var e := entries[|entries| - 1];
      ConfigMap(entries[..|entries| - 1])[e.EntityId() := e.AsDetails()]
  }

  /** The configured ids, in list order (duplicates included). */
  function Ids(entries: seq<EntityDetailsOrId>): (ids: seq<string>)
    ensures |ids| == |entries|
    ensures forall j | 0 <= j < |entries| :: ids[j] == entries[j].EntityId()
  {
    MapSeq(entries, (e: EntityDetailsOrId) => e.EntityId())
  }

  /** Every configured id is a key, and nothing else is. */
  lemma {:induction false} ConfigMapKeys(entries: seq<EntityDetailsOrId>, id: string)
    ensures id in ConfigMap(entries) <==> exists j :: 0 <= j < |entries| && entries[j].EntityId() == id
  {
    if entries != [] {
      var n := |entries| - 1;
      var prefix := entries[..n];
      ConfigMapKeys(prefix, id);
      if id in ConfigMap(prefix) {
        var j :| 0 <= j < n && prefix[j].EntityId() == id;
        assert entries[j] == prefix[j];
      } else if entries[n].EntityId() != id {
        forall j | 0 <= j < n ensures entries[j].EntityId() != id {
          assert prefix[j] == entries[j];
        }
      }
    }
  }

  /** The entry of an id is the details of the last entry listing it. */
  lemma {:induction false} ConfigMapLast(entries: seq<EntityDetailsOrId>, j: nat)
    requires j < |entries|
    requires forall q | j < q < |entries| :: entries[q].EntityId() != entries[j].EntityId()
    ensures entries[j].EntityId() in ConfigMap(entries)
    ensures ConfigMap(entries)[entries[j].EntityId()] == entries[j].AsDetails()
  {
    var n := |entries| - 1;
    if j < n {
      var prefix := entries[..n];
      assert prefix[j] == entries[j];
      forall q | j < q < n ensures prefix[q].EntityId() != prefix[j].EntityId() {
        assert prefix[q] == entries[q];
      }
      ConfigMapLast(prefix, j);
    }
  }

  // ---------------------------------------------------------------------------
  // History samples

  datatype SampleState = On | Off | Unknown

  /** One history sample: the state and the time it was last updated, in seconds. */
  datatype RawEventInfo = RawEventInfo(s: SampleState, lu: int)

  /** What identifies an event: its entity and its timestamp. */
  datatype EventKey = EventKey(entityId: string, ts: int)

  /** The number of `'on'` samples. */
  function CountOn(samples: seq<RawEventInfo>): nat {
    if samples == [] then 0
    else CountOn(samples[..|samples| - 1]) + (if samples[|samples| - 1].s == On then 1 else 0)
  }

  /** The `'on'` samples of one entity, as events, in sample order. */
  function OnSamples(id: string, samples: seq<RawEventInfo>): (r: seq<EventKey>)
    ensures |r| == CountOn(samples) <= |samples|
    ensures forall k | k in r :: k.entityId == id && RawEventInfo(On, k.ts) in samples
    ensures forall x | x in samples && x.s == On :: EventKey(id, x.lu) in r
  {
    if samples == [] then []
    else
      var x := samples[|samples| - 1];
      assert samples == samples[..|samples| - 1] + [x];
      OnSamples(id, samples[..|samples| - 1]) + (if x.s == On then [EventKey(id, x.lu)] else [])
  }

  /** The events of two runs of samples, one after the other, are the events of the
      first run followed by those of the second: events keep the order of their samples. */
  lemma {:induction false} OnSamplesConcat(id: string, a: seq<RawEventInfo>, b: seq<RawEventInfo>)
    ensures OnSamples(id, a + b) == OnSamples(id, a) + OnSamples(id, b)
    decreases |b|
  {
    if b != [] {
      var n := |b| - 1;
      assert (a + b)[..|a + b| - 1] == a + b[..n];
      OnSamplesConcat(id, a, b[..n]);
    } else {
      assert a + b == a;
    }
  }

  /** The number of `'on'` samples of the listed entities that have an entry in the
      history. */
  function OnTotal(ids: seq<string>, raw: map<string, seq<RawEventInfo>>): nat {
    if ids == [] then 0
    else
      var id := ids[|ids| - 1];
      OnTotal(ids[..|ids| - 1], raw) + (if id in raw then CountOn(raw[id]) else 0)
  }

  /** The events of all listed entities, entity by entity; an entity without an entry in
      the history contributes none. */
  function Gather(ids: seq<string>, raw: map<string, seq<RawEventInfo>>): (r: seq<EventKey>)
    ensures |r| == OnTotal(ids, raw)
    ensures forall k | k in r :: k.entityId in ids && k.entityId in raw && RawEventInfo(On, k.ts) in raw[k.entityId]
    ensures forall id, x | id in ids && id in raw && x in raw[id] && x.s == On :: EventKey(id, x.lu) in r
  {
    if ids == [] then []
    else
      var id := ids[|ids| - 1];
      assert ids == ids[..|ids| - 1] + [id];
      Gather(ids[..|ids| - 1], raw) + (if id in raw then OnSamples(id, raw[id]) else [])
  }

  /** The entities are gathered in list order: the events of two lists of entities are
      those of the first list followed by those of the second. */
  lemma {:induction false} GatherConcat(a: seq<string>, b: seq<string>, raw: map<string, seq<RawEventInfo>>)
    ensures Gather(a + b, raw) == Gather(a, raw) + Gather(b, raw)
    decreases |b|
  {
    if b != [] {
      var n := |b| - 1;
      assert (a + b)[..|a + b| - 1] == a + b[..n];
      GatherConcat(a, b[..n], raw);
    } else {
      assert a + b == a;
    }
  }

  // ---------------------------------------------------------------------------
  // Events

  /** An event of the card. `day` is the day of the month of its local date. */
  class EventInfo {
    const entityId: string
    const ts: int
    const day: int
    var isFirstOfDay: bool
    var grouped: seq<EventInfo>
    var groupLastTs: Option<int>
    var removed: bool

    constructor (entityId: string, ts: int, day: int)
      ensures this.entityId == entityId && this.ts == ts && this.day == day
      ensures Fresh()
    {
      this.entityId := entityId;
      this.ts := ts;
      this.day := day;
      isFirstOfDay := false;
      grouped := [];
      groupLastTs := None;
      removed := false;
    }

    /** Nothing has been written onto the event yet. */
    predicate Fresh()
      reads this
    {
      !isFirstOfDay && grouped == [] && groupLastTs.None? && !removed
    }
  }

  function KeyOf(e: EventInfo): EventKey {
    EventKey(e.entityId, e.ts)
  }

  function TsOf(e: EventInfo): Option<int> {
    Some(e.ts)
  }

  /** What the grouping pass reads of each event. */
  function View(events: seq<EventInfo>, cfg: map<string, EntityDetails>): (evs: seq<Ev>)
    requires forall e | e in events :: e.entityId in cfg
    ensures |evs| == |events|
    ensures forall j | 0 <= j < |events| ::
      evs[j] == Ev(events[j].ts, events[j].day, cfg[events[j].entityId].group)
  {
    seq(|events|, j requires 0 <= j < |events| =>
      Ev(events[j].ts, events[j].day, cfg[events[j].entityId].group))
  }

  /** The event objects at the given positions. */
  function Deref(events: seq<EventInfo>, idx: seq<nat>): (r: seq<EventInfo>)
    requires forall t | 0 <= t < |idx| :: idx[t] < |events|
    ensures |r| == |idx| && forall t | 0 <= t < |idx| :: r[t] == events[idx[t]]
  {
    seq(|idx|, t requires 0 <= t < |idx| => events[idx[t]])
  }

  /** Event object `e` carries mark `m`, whose positions refer to `events`. */
  ghost predicate Reflects(events: seq<EventInfo>, m: Mark, e: EventInfo)
    reads e
  {
    && e.isFirstOfDay == m.isFirstOfDay
    && e.groupLastTs == m.groupLastTs
    && e.removed == m.removed
    && |e.grouped| == |m.grouped|
    && forall t | 0 <= t < |m.grouped| :: m.grouped[t] < |events| && e.grouped[t] == events[m.grouped[t]]
  }

  ghost predicate Mirrors(events: seq<EventInfo>, marks: seq<Mark>)
    reads set e | e in events
  {
    |marks| == |events| && forall j | 0 <= j < |events| :: Reflects(events, marks[j], events[j])
  }

  /** `events.filter(e => !e.removed)`. */
  function Kept(events: seq<EventInfo>): seq<EventInfo>
    reads set e | e in events
  {
    if events == [] then []
    else
      var e := events[|events| - 1];
      Kept(events[..|events| - 1]) + (if e.removed then [] else [e])
  }

  /** The filter keeps exactly the events the pass did not remove, in list order. */
  lemma {:induction false} KeptSurvivors(events: seq<EventInfo>, marks: seq<Mark>)
    requires |marks| == |events| && forall j | 0 <= j < |events| :: events[j].removed == marks[j].removed
    ensures Kept(events) == Deref(events, Survivors(marks))
  {
    if events != [] {
      var n := |events| - 1;
      assert forall j | 0 <= j < n :: events[..n][j].removed == marks[..n][j].removed;
      KeptSurvivors(events[..n], marks[..n]);
      KeptSnoc(events);
      DerefSnoc(events, marks);
    }
  }

  /** One more position on the survivors extends their events by the last event, if kept. */
  lemma DerefSnoc(events: seq<EventInfo>, marks: seq<Mark>)
    requires |marks| == |events| > 0 && events[|events| - 1].removed == marks[|marks| - 1].removed
    ensures var n := |events| - 1;
      Deref(events, Survivors(marks))
      == Deref(events[..n], Survivors(marks[..n])) + (if events[n].removed then [] else [events[n]])
  {
    var n := |events| - 1;
    var tail: seq<nat> := if marks[n].removed then [] else [n];
    SurvivorsSnoc(marks, n);
    DerefSplit(events, n, Survivors(marks[..n]), tail);
    assert Deref(events, tail) == (if events[n].removed then [] else [events[n]]);
  }

  lemma KeptSnoc(events: seq<EventInfo>)
    requires events != []
    ensures var n := |events| - 1;
      Kept(events) == Kept(events[..n]) + (if events[n].removed then [] else [events[n]])
  {
  }

  lemma DerefSplit(events: seq<EventInfo>, n: nat, a: seq<nat>, b: seq<nat>)
    requires n <= |events|
    requires forall t | 0 <= t < |a| :: a[t] < n
    requires forall t | 0 <= t < |b| :: b[t] < |events|
    ensures Deref(events, a + b) == Deref(events[..n], a) + Deref(events, b)
  {
    var l, r := Deref(events, a + b), Deref(events[..n], a) + Deref(events, b);
    assert |l| == |r|;
    forall t | 0 <= t < |l| ensures l[t] == r[t] {
      if t < |a| {
        assert (a + b)[t] == a[t];
      } else {
        assert (a + b)[t] == b[t - |a|];
      }
    }
  }

  /** Creates the events of the listed entities: one per `'on'` sample, entity by
      entity, in sample order. */
  method CollectEvents(ids: seq<string>, raw: map<string, seq<RawEventInfo>>, dayOf: int -> int)
    returns (events: seq<EventInfo>)
    ensures Keys(events) == Gather(ids, raw)
    ensures Distinct(events)
    ensures forall e | e in events :: fresh(e) && e.Fresh() && e.day == dayOf(e.ts)
  {
    events := [];
    var k := 0;
    while k < |ids|
      invariant 0 <= k <= |ids|
      invariant Keys(events) == Gather(ids[..k], raw)
      invariant Distinct(events)
      invariant forall e | e in events :: fresh(e) && e.Fresh() && e.day == dayOf(e.ts)
    {
      var id := ids[k];
      assert ids[..k + 1][..k] == ids[..k];
      if id in raw {
        events := PushOnSamples(events, id, raw[id], dayOf);
      }
      k := k + 1;
    }
    assert ids[..|ids|] == ids;
  }

  /** `events.push(...)` of one event per `'on'` sample of entity `id`. */
  method PushOnSamples(events: seq<EventInfo>, id: string, samples: seq<RawEventInfo>, dayOf: int -> int)
    returns (r: seq<EventInfo>)
    requires Distinct(events)
    ensures Keys(r) == Keys(events) + OnSamples(id, samples)
    ensures |r| >= |events| && r[..|events|] == events
    ensures Distinct(r)
    ensures forall e | e in r :: e in events || (fresh(e) && e.Fresh() && e.day == dayOf(e.ts))
  {
    r := events;
    var j := 0;
    while j < |samples|
      invariant 0 <= j <= |samples|
      invariant Keys(r) == Keys(events) + OnSamples(id, samples[..j])
      invariant |r| >= |events| && r[..|events|] == events
      invariant Distinct(r)
      invariant forall e | e in r :: e in events || (fresh(e) && e.Fresh() && e.day == dayOf(e.ts))
    {
      OnSamplesSnoc(id, samples, j);
      AppendAssoc(Keys(events), OnSamples(id, samples[..j]), OnSamples(id, [samples[j]]));
      r := PushSample(r, id, samples[j], dayOf);
      j := j + 1;
    }
    assert samples[..|samples|] == samples;
  }

  /** `events.push(...)` of a new event if the sample is `'on'`. */
  method PushSample(events: seq<EventInfo>, id: string, sample: RawEventInfo, dayOf: int -> int)
    returns (r: seq<EventInfo>)
    requires Distinct(events)
    ensures Keys(r) == Keys(events) + OnSamples(id, [sample])
    ensures |r| >= |events| && r[..|events|] == events
    ensures Distinct(r)
    ensures forall e | e in r :: e in events || (fresh(e) && e.Fresh() && e.day == dayOf(e.ts))
  {
    r := events;
    if sample.s == On {
      var evt := new EventInfo(id, sample.lu, dayOf(sample.lu));
      assert evt !in events;
      DistinctSnoc(events, evt);
      KeysSnoc(events, evt);
      r := events + [evt];
    }
    assert [sample][..0] == [];
  }

  lemma OnSamplesSnoc(id: string, samples: seq<RawEventInfo>, j: nat)
    requires j < |samples|
    ensures OnSamples(id, samples[..j + 1]) == OnSamples(id, samples[..j]) + OnSamples(id, [samples[j]])
  {
    assert samples[..j + 1][..j] == samples[..j];
    assert [samples[j]][..0] == [];
  }

  lemma DistinctSnoc<T>(s: seq<T>, x: T)
    requires Distinct(s) && x !in s
    ensures Distinct(s + [x])
  {
  }

  /** The keys of a list of events, in list order. */
  function Keys(events: seq<EventInfo>): seq<EventKey> {
    if events == [] then [] else Keys(events[..|events| - 1]) + [KeyOf(events[|events| - 1])]
  }

  lemma AppendAssoc<T>(a: seq<T>, b: seq<T>, c: seq<T>)
    ensures a + b + c == a + (b + c)
  {
  }

  lemma KeysSnoc(events: seq<EventInfo>, e: EventInfo)
    ensures Keys(events + [e]) == Keys(events) + [KeyOf(e)]
  {
    assert (events + [e])[..|events|] == events;
  }

  lemma {:induction false} KeysAt(events: seq<EventInfo>, j: nat)
    requires j < |events|
    ensures |Keys(events)| == |events| && Keys(events)[j] == KeyOf(events[j])
  {
    var n := |events| - 1;
    KeysLength(events[..n]);
    if j < n {
      KeysAt(events[..n], j);
    }
  }

  lemma {:induction false} KeysLength(events: seq<EventInfo>)
    ensures |Keys(events)| == |events|
  {
    if events != [] {
      KeysLength(events[..|events| - 1]);
    }
  }

  // ---------------------------------------------------------------------------
  // The grouping pass on the event objects

  /** The group keys that have a representative, each mapped to the representative's
      object. */
  ghost predicate RepsMirrored(groupEvt: map<string, EventInfo>, events: seq<EventInfo>, st: PassState)
  {
    && groupEvt.Keys == st.groupEvt.Keys
    && forall g | g in groupEvt :: st.groupEvt[g] < |events| && groupEvt[g] == events[st.groupEvt[g]]
  }

  /** Flags `events[i]` as the first event of its day. */
  method MarkFirstOfDay(evt: EventInfo, ghost events: seq<EventInfo>, ghost i: nat, ghost marks: seq<Mark>)
    requires i < |events| && Distinct(events) && Mirrors(events, marks) && evt == events[i]
    modifies evt
    ensures Mirrors(events, marks[i := marks[i].(isFirstOfDay := true)])
  {
    evt.isFirstOfDay := true;
  }

  /** Folds `events[i]` into the representative `events[rep]`: appends it to the
      representative's `grouped` list, moves its chain tail to the event and flags the
      event removed. */
  method Fold(lastEvtGroup: EventInfo, evt: EventInfo,
              ghost events: seq<EventInfo>, ghost rep: nat, ghost i: nat, ghost marks: seq<Mark>)
    requires rep < i < |events| && Distinct(events) && Mirrors(events, marks)
    requires lastEvtGroup == events[rep] && evt == events[i]
    modifies lastEvtGroup, evt
    ensures Mirrors(events, FoldMarks(marks, rep, i, events[i].ts))
  {
    lastEvtGroup.grouped := lastEvtGroup.grouped + [evt];
    lastEvtGroup.groupLastTs := Some(evt.ts);
    evt.removed := true;
  }

  /** The grouping part of one iteration, for `events[i]` of non-empty group `g`: folds
      the event into the group's representative when it lies within `range` of the
      representative's chain tail, and makes it the new representative otherwise. */
  method GroupEvent(evt: EventInfo, g: string, groupEvt: map<string, EventInfo>, range: int,
                    ghost events: seq<EventInfo>, ghost evs: seq<Ev>, ghost st: PassState,
                    ghost i: nat, ghost marks: seq<Mark>)
    returns (groupEvt': map<string, EventInfo>)
    requires i < |events| == |evs| && evt == events[i] && evs[i].ts == evt.ts && Distinct(events)
    requires Framed(st, |evs|, i) && RepsMirrored(groupEvt, events, st)
    requires forall j | 0 <= j < |evs| :: evs[j].ts == events[j].ts
    requires |marks| == |events| && Mirrors(events, marks)
    requires forall j | 0 <= j < |marks| && j != i :: marks[j] == st.marks[j]
    modifies set e | e in events
    ensures CanGroup(st, evs, g, evt.ts, range) ==>
      groupEvt' == groupEvt && Mirrors(events, FoldMarks(marks, st.groupEvt[g], i, evt.ts))
    ensures !CanGroup(st, evs, g, evt.ts, range) ==>
      groupEvt' == groupEvt[g := evt] && Mirrors(events, marks)
  {
    groupEvt' := groupEvt;
    var canGroup := false;
    if g in groupEvt {
      var lastEvtGroup := groupEvt[g];
      var lastEvtTs := if lastEvtGroup.groupLastTs.Some? && lastEvtGroup.groupLastTs.value != 0
                       then lastEvtGroup.groupLastTs.value else lastEvtGroup.ts;
      canGroup := lastEvtTs - evt.ts <= range;
    }
    assert canGroup == CanGroup(st, evs, g, evt.ts, range);
    if canGroup {
      Fold(groupEvt[g], evt, events, st.groupEvt[g], i, marks);
    } else {
      groupEvt' := groupEvt[g := evt];
    }
  }

  /** The day flag of `Visit` followed by its grouping decision. */
  lemma VisitSteps(st: PassState, evs: seq<Ev>, i: nat, range: int)
    requires i < |evs| && Framed(st, |evs|, i)
    ensures var first := st.lastDay.None? || evs[i].day != st.lastDay.value;
      var marks := if first then st.marks[i := st.marks[i].(isFirstOfDay := true)] else st.marks;
      var lastDay := if first then Some(evs[i].day) else st.lastDay;
      var g := evs[i].group;
      Visit(st, evs, i, range) ==
        if !Truthy(g) then PassState(marks, st.groupEvt, lastDay)
        else if CanGroup(st, evs, g.value, evs[i].ts, range)
        then PassState(FoldMarks(marks, st.groupEvt[g.value], i, evs[i].ts), st.groupEvt, lastDay)
        else PassState(marks, st.groupEvt[g.value := i], lastDay)
  {
  }

  /** The representatives after a visit: the event becomes the representative of its
      group exactly when it has a group and cannot be folded. */
  lemma RepsAfterVisit(groupEvt: map<string, EventInfo>, events: seq<EventInfo>, st: PassState,
                       evs: seq<Ev>, i: nat, range: int, groupEvt': map<string, EventInfo>)
    requires i < |events| == |evs| && Framed(st, |evs|, i) && RepsMirrored(groupEvt, events, st)
    requires groupEvt' == if Truthy(evs[i].group) && !CanGroup(st, evs, evs[i].group.value, evs[i].ts, range)
                          then groupEvt[evs[i].group.value := events[i]] else groupEvt
    ensures RepsMirrored(groupEvt', events, Visit(st, evs, i, range))
  {
    VisitSteps(st, evs, i, range);
  }

  /** One iteration of the loop of `firstUpdated`, for `events[i]`. */
  method VisitEvent(events: seq<EventInfo>, cfg: map<string, EntityDetails>, range: int, i: nat,
                    groupEvt: map<string, EventInfo>, lastDay: Option<int>,
                    ghost evs: seq<Ev>, ghost st: PassState)
    returns (groupEvt': map<string, EventInfo>, lastDay': Option<int>)
    requires forall e | e in events :: e.entityId in cfg
    requires evs == View(events, cfg) && i < |events| && Distinct(events)
    requires Framed(st, |evs|, i) && Mirrors(events, st.marks)
    requires RepsMirrored(groupEvt, events, st) && lastDay == st.lastDay
    modifies set e | e in events
    ensures Mirrors(events, Visit(st, evs, i, range).marks)
    ensures RepsMirrored(groupEvt', events, Visit(st, evs, i, range))
    ensures lastDay' == Visit(st, evs, i, range).lastDay
  {
    groupEvt', lastDay' := groupEvt, lastDay;
    var evt := events[i];
    ghost var marks := st.marks;
    VisitSteps(st, evs, i, range);
    assert |marks| == |events| && evt.ts == evs[i].ts && evt.day == evs[i].day;
    assert cfg[evt.entityId].group == evs[i].group;
    var evtDate := evt.day;
    if lastDay'.None? || evtDate != lastDay'.value {
      lastDay' := Some(evtDate);
      MarkFirstOfDay(evt, events, i, marks);
      marks := marks[i := marks[i].(isFirstOfDay := true)];
    }
    var group := cfg[evt.entityId].group;
    if group.Some? && group.value != "" {
      var g := group.value;
      groupEvt' := GroupEvent(evt, g, groupEvt', range, events, evs, st, i, marks);
      if CanGroup(st, evs, g, evt.ts, range) {
        marks := FoldMarks(marks, st.groupEvt[g], i, evt.ts);
      }
    }
    RepsAfterVisit(groupEvt, events, st, evs, i, range, groupEvt');
  }

  /** The loop of `firstUpdated` over the sorted events: marks first events of days,
      folds events into their group's representative, flags them removed. */
  method GroupAndMark(events: seq<EventInfo>, cfg: map<string, EntityDetails>, range: int)
    requires Distinct(events)
    requires forall e | e in events :: e.entityId in cfg && e.Fresh()
    modifies set e | e in events
    ensures Mirrors(events, Final(View(events, cfg), range).marks)
  {
    ghost var evs := View(events, cfg);
    var groupEvt: map<string, EventInfo> := map[];
    var lastDay: Option<int> := None;
    ghost var st := Pass(evs, 0, range);
    var i := 0;
    while i < |events|
      invariant 0 <= i <= |events|
      invariant st == Pass(evs, i, range)
      invariant Mirrors(events, st.marks)
      invariant RepsMirrored(groupEvt, events, st)
      invariant lastDay == st.lastDay
    {
      groupEvt, lastDay := VisitEvent(events, cfg, range, i, groupEvt, lastDay, evs, st);
      st := Visit(st, evs, i, range);
      i := i + 1;
    }
  }

  // ---------------------------------------------------------------------------
  // Counting the folded events on the objects

  /** The sum of `grouped.length` over a list of events. */
  function GroupedTotal(events: seq<EventInfo>): nat
    reads set e | e in events
  {
    if events == [] then 0
    else GroupedTotal(events[..|events| - 1]) + |events[|events| - 1].grouped|
  }

  lemma {:induction false} GroupedTotalAppend(a: seq<EventInfo>, b: seq<EventInfo>)
    ensures GroupedTotal(a + b) == GroupedTotal(a) + GroupedTotal(b)
    decreases |b|
  {
    if b != [] {
      var n := |b| - 1;
      assert (a + b)[..|a + b| - 1] == a + b[..n];
      GroupedTotalAppend(a, b[..n]);
    } else {
      assert a + b == a;
    }
  }

  /** Over the events a pass has marked, the kept events carry all folded events. */
  lemma {:induction false} KeptTotal(events: seq<EventInfo>, marks: seq<Mark>)
    requires |marks| == |events|
    requires forall j | 0 <= j < |events| ::
      events[j].removed == marks[j].removed && |events[j].grouped| == |marks[j].grouped|
    ensures GroupedTotal(Kept(events)) == SumGrouped(marks)
  {
    if events != [] {
      var n := |events| - 1;
      var prefix, mp := events[..n], marks[..n];
      assert forall j | 0 <= j < n ::
        prefix[j].removed == mp[j].removed && |prefix[j].grouped| == |mp[j].grouped|;
      KeptTotal(prefix, mp);
      assert mp == marks[..|marks| - 1];
      var e := events[n];
      var tail := if e.removed then [] else [e];
      GroupedTotalAppend(Kept(prefix), tail);
      if !e.removed {
        assert [e][..0] == [];
      }
    }
  }

  /** The pass reads an event's timestamp from the object: a list sorted by the objects'
      timestamps is sorted for the pass. */
  lemma SortedView(events: seq<EventInfo>, cfg: map<string, EntityDetails>)
    requires forall e | e in events :: e.entityId in cfg
    requires SortedDesc(events, TsOf)
    ensures SortedByTs(View(events, cfg))
  {
    var evs := View(events, cfg);
    forall a, b | 0 <= a < b < |evs| ensures evs[a].ts >= evs[b].ts {
      assert AtLeast(TsOf(events[a]), TsOf(events[b]));
    }
  }

  // ---------------------------------------------------------------------------
  // The card

  datatype EventsCardConfig = EventsCardConfig(title: Option<string>, entities: seq<EntityDetailsOrId>)

  class EventsCard {
    var config: Option<EventsCardConfig>
    var entityConfig: map<string, EntityDetails>
    var events: seq<EventInfo>

    constructor ()
      ensures config.None? && entityConfig == map[] && events == []
    {
      config := None;
      entityConfig := map[];
      events := [];
    }

    /** Once configured, `entityConfig` is the map of the configured entities. */
    ghost predicate Valid()
      reads this
    {
      config.Some? ==> entityConfig == ConfigMap(config.value.entities)
    }

    /** Stores the configuration and maps every entity id to its details. */
    method SetConfig(config: EventsCardConfig)
      modifies this
      ensures this.config == Some(config) && entityConfig == ConfigMap(config.entities)
      ensures events == old(events)
      ensures Valid()
    {
      this.config := Some(config);
      entityConfig := map[];
      var k := 0;
      while k < |config.entities|
        invariant 0 <= k <= |config.entities|
        invariant this.config == Some(config) && events == old(events)
        invariant entityConfig == ConfigMap(config.entities[..k])
      {
        var e := config.entities[k];
        assert config.entities[..k + 1][..k] == config.entities[..k];
        entityConfig := entityConfig[e.EntityId() := e.AsDetails()];
        k := k + 1;
      }
      assert config.entities[..k] == config.entities;
    }

    /** Builds the list of events shown from the history of the configured entities
        (`raw`, absent when the history call returned nothing); `dayOf` gives the day of
        the month of a timestamp. `created` are the events in collection order and
        `sorted` the same events after the sort; what is written onto them is stated by
        `Aggregate`. */
    method FirstUpdated(raw: Option<map<string, seq<RawEventInfo>>>, dayOf: int -> int)
      returns (ghost created: seq<EventInfo>, ghost sorted: seq<EventInfo>)
      requires Valid() && config.Some?
      modifies this
      ensures config == old(config) && entityConfig == old(entityConfig)
      ensures Keys(created) == Gather(Ids(config.value.entities), if raw.Some? then raw.value else map[])
      ensures forall e | e in created :: fresh(e) && e.day == dayOf(e.ts) && e.entityId in entityConfig
      ensures sorted == SortDesc(created, TsOf)
      ensures forall e | e in sorted :: e.entityId in entityConfig
      ensures SortedByTs(View(sorted, entityConfig))
      ensures Distinct(created) && Distinct(sorted)
      ensures Mirrors(sorted, Final(View(sorted, entityConfig), GroupingRange).marks)
      ensures events == Deref(sorted, Survivors(Final(View(sorted, entityConfig), GroupingRange).marks))
      ensures |events| + GroupedTotal(events) == |created|
                == OnTotal(Ids(config.value.entities), if raw.Some? then raw.value else map[])
      ensures Valid()
    {
      var ids := Ids(config.value.entities);
      IdsConfigured(config.value.entities);
      var rawEvents := if raw.Some? then raw.value else map[];
      var cfg := entityConfig;
      var kept;
      kept, created, sorted := Aggregate(ids, rawEvents, cfg, dayOf);
      ghost var marks := Final(View(sorted, cfg), GroupingRange).marks;
      ghost var total := GroupedTotal(kept);
      events := kept;
      assert Mirrors(sorted, marks) && GroupedTotal(events) == total;
    }
  }

  /** Every configured id is a key of the configuration map. */
  lemma IdsConfigured(entries: seq<EntityDetailsOrId>)
    ensures forall id | id in Ids(entries) :: id in ConfigMap(entries)
  {
    forall id | id in Ids(entries) ensures id in ConfigMap(entries) {
      var q :| 0 <= q < |entries| && Ids(entries)[q] == id;
      ConfigMapKeys(entries, id);
    }
  }

  /** The events collected for configured ids belong to configured entities. */
  lemma CollectedConfigured(collected: seq<EventInfo>, ids: seq<string>, raw: map<string, seq<RawEventInfo>>,
                            cfg: map<string, EntityDetails>)
    requires Keys(collected) == Gather(ids, raw)
    requires forall id | id in ids :: id in cfg
    ensures forall e | e in collected :: e.entityId in cfg
  {
    forall e | e in collected ensures e.entityId in cfg {
      var j :| 0 <= j < |collected| && collected[j] == e;
      KeysAt(collected, j);
    }
  }

  /** Lines 94-135 of `firstUpdated`: collects, sorts, groups and filters the events. */
  method Aggregate(ids: seq<string>, rawEvents: map<string, seq<RawEventInfo>>,
                   cfg: map<string, EntityDetails>, dayOf: int -> int)
    returns (kept: seq<EventInfo>, ghost created: seq<EventInfo>, ghost sorted: seq<EventInfo>)
    requires forall id | id in ids :: id in cfg
    ensures Keys(created) == Gather(ids, rawEvents)
    ensures forall e | e in created :: fresh(e) && e.day == dayOf(e.ts) && e.entityId in cfg
    ensures sorted == SortDesc(created, TsOf)
    ensures forall e | e in sorted :: e.entityId in cfg
    ensures SortedByTs(View(sorted, cfg))
    ensures Mirrors(sorted, Final(View(sorted, cfg), GroupingRange).marks)
    ensures kept == Kept(sorted)
    ensures kept == Deref(sorted, Survivors(Final(View(sorted, cfg), GroupingRange).marks))
    ensures Distinct(created) && Distinct(sorted)
    ensures |kept| + GroupedTotal(kept) == |created| == OnTotal(ids, rawEvents)
  {
    var events := CollectEvents(ids, rawEvents, dayOf);
    created := events;
    CollectedConfigured(events, ids, rawEvents, cfg);
    events := SortDesc(events, TsOf);
    sorted := events;
    SortDescDistinct(created, TsOf);
    SortDescSorted(created, TsOf);
    assert forall e | e in sorted :: e in multiset(created);
    SortedView(sorted, cfg);
    GroupAndMark(events, cfg, GroupingRange);
    kept := Kept(events);
    Summarise(sorted, cfg);
    KeysLength(created);
  }

  /** What the filter keeps of a marked list. */
  lemma Summarise(sorted: seq<EventInfo>, cfg: map<string, EntityDetails>)
    requires forall e | e in sorted :: e.entityId in cfg
    requires Mirrors(sorted, Final(View(sorted, cfg), GroupingRange).marks)
    ensures Kept(sorted) == Deref(sorted, Survivors(Final(View(sorted, cfg), GroupingRange).marks))
    ensures |Kept(sorted)| + GroupedTotal(Kept(sorted)) == |sorted|
  {
    var m := Final(View(sorted, cfg), GroupingRange).marks;
    KeptSurvivors(sorted, m);
    KeptTotal(sorted, m);
    Conservation(View(sorted, cfg), GroupingRange);
  }
}
