/** The top-power card: ranks the configured circuits by their current power, keeps the
    first `limit` of them, and classifies each row as total, idle, high or normal. A
    parsed power reading is an `Option<int>`, where `None` stands for a reading that
    does not parse as a number (NaN). */
module TopPowerCard {
  import opened Wrappers
  import opened Sorting

  const DefaultIdleThreshold := 5
  const DefaultHighThreshold := 300

  datatype CircuitEntry = CircuitEntry(entity: string, name: Option<string>,
                                       idleThreshold: Option<int>, highThreshold: Option<int>)

  datatype TopPowerCardConfig = TopPowerCardConfig(
    total: CircuitEntry,
    circuits: seq<CircuitEntry>,
    title: Option<string>,
    limit: Option<int>,
    idleThreshold: Option<int>,
    highThreshold: Option<int>)

  /** A row of the ranking: a circuit and its parsed reading. */
  datatype Entry = Entry(device: CircuitEntry, value: Option<int>)

  datatype Status = Total | Idle | High | Normal

  function ValueOf(e: Entry): Option<int> {
    e.value
  }

  // ---------------------------------------------------------------------------
  // Ranking

  /** `Array.prototype.splice(start, deleteCount)` on integer arguments: what is left of
      `s` once the deleted run is taken out. */
  function Splice<T>(s: seq<T>, start: int, deleteCount: int): (r: seq<T>)
    ensures |r| <= |s|
  {
    var from := if start < 0 then (if |s| + start < 0 then 0 else |s| + start)
                else if start < |s| then start else |s|;
    var count := if deleteCount < 0 then 0
                 else if deleteCount < |s| - from then deleteCount else |s| - from;
    s[..from] + s[from + count..]
  }

  function Min(a: int, b: int): int {
    if a <= b then a else b
  }

  /** With a positive limit, the splice of the ranking keeps exactly its first
      `min(limit, length)` entries. */
  lemma SpliceToLimit<T>(s: seq<T>, limit: int)
    requires limit > 0
    ensures Splice(s, limit, |s| - limit) == s[..Min(limit, |s|)]
  {
    if limit < |s| {
      assert s[limit + (|s| - limit)..] == [];
    } else {
      assert s[|s|..] == [];
      assert s[..|s|] == s;
    }
  }

  /** A positive limit. */
  predicate Limited(config: TopPowerCardConfig) {
    config.limit.Some? && config.limit.value > 0
  }

  /** Every circuit with its reading, in configuration order. */
  function Entries(config: TopPowerCardConfig, readingOf: string -> Option<int>): (all: seq<Entry>)
    ensures |all| == |config.circuits|
    ensures forall j | 0 <= j < |all| :: all[j].device == config.circuits[j] && all[j].value == readingOf(all[j].device.entity)
  {
    MapSeq(config.circuits, (d: CircuitEntry) => Entry(d, readingOf(d.entity)))
  }

  /** A prefix of a sorted list is sorted, is part of the list, and ranks no lower than
      what follows it. */
  lemma PrefixOfSorted(sorted: seq<Entry>, k: nat)
    requires k <= |sorted| && SortedDesc(sorted, ValueOf)
    ensures SortedDesc(sorted[..k], ValueOf)
    ensures multiset(sorted[..k]) <= multiset(sorted)
    ensures forall a, b | 0 <= a < k <= b < |sorted| :: AtLeast(sorted[a].value, sorted[b].value)
  {
    assert sorted == sorted[..k] + sorted[k..];
    assert multiset(sorted) == multiset(sorted[..k]) + multiset(sorted[k..]);
    forall a, b | 0 <= a < k <= b < |sorted| ensures AtLeast(sorted[a].value, sorted[b].value) {
      assert AtLeast(ValueOf(sorted[a]), ValueOf(sorted[b]));
    }
  }

  /** An entry found among the ranked rows is a configured circuit with its reading. */
  lemma RankedFromCircuits(config: TopPowerCardConfig, readingOf: string -> Option<int>, entries: seq<Entry>)
    requires multiset(entries) <= multiset(Entries(config, readingOf))
    ensures forall e | e in entries :: e.device in config.circuits && e.value == readingOf(e.device.entity)
  {
    var all := Entries(config, readingOf);
    forall e | e in entries ensures e.device in config.circuits && e.value == readingOf(e.device.entity) {
      assert e in multiset(all);
      var j :| 0 <= j < |all| && all[j] == e;
    }
  }

  /** The ranked rows `render` lists under the total: every circuit with its reading,
      sorted by descending reading (unparsable readings last, ties in configuration
      order), truncated to `limit` when it is positive. */
  method Rank(config: TopPowerCardConfig, readingOf: string -> Option<int>) returns (entries: seq<Entry>)
    ensures |entries| == (if Limited(config) then Min(config.limit.value, |config.circuits|) else |config.circuits|)
    ensures entries == SortDesc(Entries(config, readingOf), ValueOf)[..|entries|]
    ensures multiset(entries) <= multiset(Entries(config, readingOf))
    ensures !Limited(config) ==> multiset(entries) == multiset(Entries(config, readingOf))
    ensures SortedDesc(entries, ValueOf)
    ensures forall e | e in entries :: e.device in config.circuits && e.value == readingOf(e.device.entity)
    ensures var sorted := SortDesc(Entries(config, readingOf), ValueOf);
      forall a, b | 0 <= a < |entries| <= b < |sorted| :: AtLeast(sorted[a].value, sorted[b].value)
  {
    entries := MapSeq(config.circuits, (d: CircuitEntry) => Entry(d, readingOf(d.entity)));
    entries := SortDesc(entries, ValueOf);
    ghost var sorted := entries;
    SortDescSorted(Entries(config, readingOf), ValueOf);
    if config.limit.Some? && config.limit.value > 0 {
      SpliceToLimit(entries, config.limit.value);
      entries := Splice(entries, config.limit.value, |entries| - config.limit.value);
    } else {
      assert entries == sorted[..|sorted|];
    }
    PrefixOfSorted(sorted, |entries|);
    RankedFromCircuits(config, readingOf, entries);
  }

  // ---------------------------------------------------------------------------
  // Status

  /** `device || card || fallback` on numbers: the first threshold that is set and not 0. */
  function Threshold(device: Option<int>, card: Option<int>, fallback: int): int {
    if device.Some? && device.value != 0 then device.value
    else if card.Some? && card.value != 0 then card.value
    else fallback
  }

  /** The resolution takes the device's threshold if it is set and non-zero, otherwise the
      card's if set and non-zero, otherwise the default; a threshold of 0 counts as unset. */
  lemma ThresholdFallback(device: Option<int>, card: Option<int>, fallback: int)
    ensures Threshold(Some(0), card, fallback) == Threshold(None, card, fallback)
    ensures Threshold(device, Some(0), fallback) == Threshold(device, None, fallback)
    ensures Threshold(None, None, fallback) == fallback
    ensures (device.Some? && device.value != 0) ==> Threshold(device, card, fallback) == device.value
    ensures (device.None? || device.value == 0) ==> Threshold(device, card, fallback) == Threshold(card, None, fallback)
    ensures fallback != 0 ==> Threshold(device, card, fallback) != 0
  {
  }

  function IdleThreshold(config: TopPowerCardConfig, device: CircuitEntry): int {
    Threshold(device.idleThreshold, config.idleThreshold, DefaultIdleThreshold)
  }

  function HighThreshold(config: TopPowerCardConfig, device: CircuitEntry): int {
    Threshold(device.highThreshold, config.highThreshold, DefaultHighThreshold)
  }

  /** The status of a row, decided step by step as `renderEntry` does: each later check
      overrides the earlier ones. */
  method EntryStatus(config: TopPowerCardConfig, device: CircuitEntry, value: Option<int>, isTotal: bool)
    returns (status: Status)
    ensures status == Total <==> isTotal
    ensures !isTotal && value.None? ==> status == Idle
    ensures !isTotal && value.Some? ==>
      && (status == High <==> value.value > HighThreshold(config, device))
      && (status == Idle <==> value.value < IdleThreshold(config, device) && value.value <= HighThreshold(config, device))
      && (status == Normal <==> IdleThreshold(config, device) <= value.value <= HighThreshold(config, device))
  {
    status := Normal;
    var idleThreshold := Threshold(device.idleThreshold, config.idleThreshold, DefaultIdleThreshold);
    var highThreshold := Threshold(device.highThreshold, config.highThreshold, DefaultHighThreshold);
    if value.Some? && value.value < idleThreshold {
      status := Idle;
    }
    if value.Some? && value.value > highThreshold {
      status := High;
    }
    if value.None? {
      status := Idle;
    }
    if isTotal {
      status := Total;
    }
  }
}
