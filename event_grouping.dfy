/** The grouping pass of the events card as a function of its inputs: one forward
    visit per event of the time-sorted list, which marks the first event of each day
    and folds an event of a configured group into the group's current representative
    when it lies within the grouping window of the representative's chain tail. */
module EventGrouping {
  import opened Wrappers

  /** What the pass reads of one event: its timestamp in seconds, its day bucket and
      the `group` configured for its entity. */
  datatype Ev = Ev(ts: int, day: int, group: Option<string>)

  /** What the pass writes onto one event. `grouped` lists positions in the event list. */
  datatype Mark = Mark(isFirstOfDay: bool, grouped: seq<nat>, groupLastTs: Option<int>, removed: bool)

  /** The marks of all events, the representative per group and the day of the last
      visited event. */
  datatype PassState = PassState(marks: seq<Mark>, groupEvt: map<string, nat>, lastDay: Option<int>)

  const Unmarked := Mark(false, [], None, false)

  /** A group key counts only when it is set and not empty. */
  predicate Truthy(g: Option<string>) {
    g.Some? && g.value != ""
  }

  /** `groupLastTs || ts`: the timestamp the window is measured from; a `groupLastTs`
      of 0 is falsy like an unset one. */
  function ChainTail(m: Mark, ts: int): int {
    if m.groupLastTs.Some? && m.groupLastTs.value != 0 then m.groupLastTs.value else ts
  }

  function Last(s: seq<nat>): nat
    requires s != []
  {
    s[|s| - 1]
  }

  /** After `k` visits, every position the state refers to is a visited one. */
  ghost predicate Framed(st: PassState, n: nat, k: nat) {
    && |st.marks| == n && k <= n
    && (forall g | g in st.groupEvt :: st.groupEvt[g] < k)
    && (forall j, t | 0 <= j < n && 0 <= t < |st.marks[j].grouped| :: st.marks[j].grouped[t] < k)
  }

  function Start(n: nat): (st: PassState)
    ensures Framed(st, n, 0)
  {
    PassState(seq(n, _ => Unmarked), map[], None)
  }

  /** One iteration of the loop, for the event at position `i`. */
  function Visit(st: PassState, evs: seq<Ev>, i: nat, range: int): (r: PassState)
    requires i < |evs| && Framed(st, |evs|, i)
    ensures Framed(r, |evs|, i + 1)
    ensures forall j | 0 <= j < |evs| && j != i && !RepOf(st, evs[i].group, j) :: r.marks[j] == st.marks[j]
  {
    var e := evs[i];
    var first := st.lastDay.None? || e.day != st.lastDay.value;
    var marks := if first then st.marks[i := st.marks[i].(isFirstOfDay := true)] else st.marks;
    var lastDay := if first then Some(e.day) else st.lastDay;
    if !Truthy(e.group) then
      PassState(marks, st.groupEvt, lastDay)
    else if CanGroup(st, evs, e.group.value, e.ts, range) then
      PassState(FoldMarks(marks, st.groupEvt[e.group.value], i, e.ts), st.groupEvt, lastDay)
    else
      PassState(marks, st.groupEvt[e.group.value := i], lastDay)
  }

  /** `j` is the current representative of the set group `g`. */
  predicate RepOf(st: PassState, g: Option<string>, j: nat) {
    Truthy(g) && g.value in st.groupEvt && st.groupEvt[g.value] == j
  }

  /** The marks after event `i` is folded into representative `rep`: `i` joins the
      representative's `grouped` list, becomes its chain tail and is flagged removed. */
  function FoldMarks(marks: seq<Mark>, rep: nat, i: nat, ts: int): seq<Mark>
    requires rep < |marks| && i < |marks|
  {
    var merged := marks[rep := marks[rep].(grouped := marks[rep].grouped + [i], groupLastTs := Some(ts))];
    merged[i := merged[i].(removed := true)]
  }

  /** Group `g` has a representative and `ts` lies within `range` of its chain tail. */
  predicate CanGroup(st: PassState, evs: seq<Ev>, g: string, ts: int, range: int)
    requires |st.marks| == |evs| && forall h | h in st.groupEvt :: st.groupEvt[h] < |evs|
  {
    g in st.groupEvt && ChainTail(st.marks[st.groupEvt[g]], evs[st.groupEvt[g]].ts) - ts <= range
  }

  /** The state after the first `k` visits. */
  function Pass(evs: seq<Ev>, k: nat, range: int): (st: PassState)
    requires k <= |evs|
    ensures Framed(st, |evs|, k)
    decreases k
  {
    if k == 0 then Start(|evs|) else Visit(Pass(evs, k - 1, range), evs, k - 1, range)
  }

  function Final(evs: seq<Ev>, range: int): (st: PassState)
    ensures Framed(st, |evs|, |evs|)
  {
    Pass(evs, |evs|, range)
  }

  function RemovedCount(marks: seq<Mark>): nat {
    if marks == [] then 0
    else RemovedCount(marks[..|marks| - 1]) + (if marks[|marks| - 1].removed then 1 else 0)
  }

  /** The number of events folded into an event that is kept. */
  function Weight(m: Mark): nat {
    if m.removed then 0 else |m.grouped|
  }

  /** The sum of `grouped.length` over the kept events. */
  function SumGrouped(marks: seq<Mark>): nat {
    if marks == [] then 0 else SumGrouped(marks[..|marks| - 1]) + Weight(marks[|marks| - 1])
  }

  /** The positions of the events that are not removed, in list order. */
  function Survivors(marks: seq<Mark>): (r: seq<nat>)
    ensures forall t | 0 <= t < |r| :: r[t] < |marks| && !marks[r[t]].removed
    ensures forall t1, t2 | 0 <= t1 < t2 < |r| :: r[t1] < r[t2]
    ensures forall j | 0 <= j < |marks| && !marks[j].removed :: j in r
    ensures |r| + RemovedCount(marks) == |marks|
  {
    if marks == [] then []
    else Survivors(marks[..|marks| - 1]) + (if marks[|marks| - 1].removed then [] else [|marks| - 1])
  }

  lemma SurvivorsSnoc(marks: seq<Mark>, n: nat)
    requires n + 1 == |marks|
    ensures Survivors(marks) == Survivors(marks[..n]) + (if marks[n].removed then [] else [n])
  {
  }

  /** The position of the last of the first `k` events whose group is `g`. */
  function LastOfGroup(evs: seq<Ev>, k: nat, g: string): (p: Option<nat>)
    requires k <= |evs|
    ensures p.Some? ==> p.value < k && evs[p.value].group == Some(g)
    ensures p.Some? ==> forall q | p.value < q < k :: evs[q].group != Some(g)
    ensures p.None? ==> forall q | 0 <= q < k :: evs[q].group != Some(g)
  {
    if k == 0 then None
    else if evs[k - 1].group == Some(g) then Some(k - 1)
    else LastOfGroup(evs, k - 1, g)
  }

  // ---------------------------------------------------------------------------
  // Counting helpers

  lemma {:induction false} RemovedCountUpdate(m: seq<Mark>, j: nat, x: Mark)
    requires j < |m|
    ensures RemovedCount(m[j := x])
         == RemovedCount(m) - (if m[j].removed then 1 else 0) + (if x.removed then 1 else 0)
  {
    if j < |m| - 1 {
      assert m[j := x][..|m| - 1] == m[..|m| - 1][j := x];
      RemovedCountUpdate(m[..|m| - 1], j, x);
    } else {
      assert m[j := x][..|m| - 1] == m[..|m| - 1];
    }
  }

  lemma {:induction false} SumGroupedUpdate(m: seq<Mark>, j: nat, x: Mark)
    requires j < |m|
    ensures SumGrouped(m[j := x]) == SumGrouped(m) - Weight(m[j]) + Weight(x)
  {
    if j < |m| - 1 {
      assert m[j := x][..|m| - 1] == m[..|m| - 1][j := x];
      SumGroupedUpdate(m[..|m| - 1], j, x);
    } else {
      assert m[j := x][..|m| - 1] == m[..|m| - 1];
    }
  }

  lemma {:induction false} StartCounts(n: nat)
    ensures RemovedCount(Start(n).marks) == 0 && SumGrouped(Start(n).marks) == 0
  {
    var m := Start(n).marks;
    if n > 0 {
      assert m[..n - 1] == Start(n - 1).marks;
      StartCounts(n - 1);
    }
  }

  // ---------------------------------------------------------------------------
  // The invariant of the pass

  ghost predicate Untouched(st: PassState, k: nat) {
    forall j | k <= j < |st.marks| :: st.marks[j] == Unmarked
  }

  ghost predicate DaysMarked(evs: seq<Ev>, k: nat, st: PassState)
    requires |st.marks| == |evs| && k <= |evs|
  {
    && (if k == 0 then st.lastDay == None else st.lastDay == Some(evs[k - 1].day))
    && forall j | 0 <= j < k :: st.marks[j].isFirstOfDay == NewDay(evs, j)
  }

  /** Event `j` opens a day: it is the first event, or its day differs from that of
      the event before it. */
  predicate NewDay(evs: seq<Ev>, j: nat)
    requires j < |evs|
  {
    j == 0 || evs[j].day != evs[j - 1].day
  }

  /** Each representative is kept and carries its group. */
  ghost predicate RepsValid(evs: seq<Ev>, st: PassState)
    requires Framed(st, |evs|, |evs|)
  {
    forall g | g in st.groupEvt ::
      g != "" && evs[st.groupEvt[g]].group == Some(g) && !st.marks[st.groupEvt[g]].removed
  }

  /** A folded event comes later than its representative, is removed and shares its group;
      the folded events are listed in visiting order. */
  ghost predicate ChildrenValid(evs: seq<Ev>, st: PassState)
    requires Framed(st, |evs|, |evs|)
  {
    && (forall r, t | 0 <= r < |evs| && 0 <= t < |st.marks[r].grouped| ::
          && r < st.marks[r].grouped[t]
          && st.marks[st.marks[r].grouped[t]].removed
          && evs[st.marks[r].grouped[t]].group == evs[r].group)
    && (forall r, t1, t2 | 0 <= r < |evs| && 0 <= t1 < t2 < |st.marks[r].grouped| ::
          st.marks[r].grouped[t1] < st.marks[r].grouped[t2])
  }

  /** A removed event has a group, never became a representative and has an owner. */
  ghost predicate RemovedValid(evs: seq<Ev>, st: PassState)
    requires Framed(st, |evs|, |evs|)
  {
    forall j | 0 <= j < |evs| && st.marks[j].removed ::
      && Truthy(evs[j].group) && st.marks[j].grouped == [] && st.marks[j].groupLastTs == None
      && exists r :: 0 <= r < |evs| && j in st.marks[r].grouped
  }

  /** No event is folded into two representatives. */
  ghost predicate OwnedOnce(st: PassState)
  {
    forall r1, r2, j | 0 <= r1 < |st.marks| && 0 <= r2 < |st.marks|
                       && j in st.marks[r1].grouped && j in st.marks[r2].grouped :: r1 == r2
  }

  /** The `groupLastTs` of event `r`. */
  function TailOf(st: PassState, r: nat): Option<int>
    requires r < |st.marks|
  {
    st.marks[r].groupLastTs
  }

  /** `groupLastTs` is the timestamp of the last folded event, and unset before any. */
  ghost predicate TailsValid(evs: seq<Ev>, st: PassState)
    requires Framed(st, |evs|, |evs|)
  {
    forall r {:trigger TailOf(st, r)} | 0 <= r < |evs| ::
      TailOf(st, r) == if st.marks[r].grouped == [] then None else Some(evs[Last(st.marks[r].grouped)].ts)
  }

  /** A group has a representative once one of its events was visited, and the last
      visited event of the group is the representative or its last folded event. */
  ghost predicate Chained(evs: seq<Ev>, k: nat, st: PassState)
    requires Framed(st, |evs|, k)
  {
    && (forall g :: g in st.groupEvt <==> g != "" && LastOfGroup(evs, k, g).Some?)
    && (forall g | g in st.groupEvt ::
          var p := LastOfGroup(evs, k, g).value;
          var r := st.groupEvt[g];
          (r == p && st.marks[r].grouped == []) || (st.marks[r].grouped != [] && Last(st.marks[r].grouped) == p))
  }

  /** The part of the invariant about days, representatives and folded events. */
  ghost predicate ShapeInvariant(evs: seq<Ev>, k: nat, st: PassState)
    requires Framed(st, |evs|, k)
  {
    && Untouched(st, k)
    && DaysMarked(evs, k, st)
    && RepsValid(evs, st)
    && ChildrenValid(evs, st)
    && RemovedValid(evs, st)
  }

  /** The part of the invariant about owners, tails, counts and chains. */
  ghost predicate ChainInvariant(evs: seq<Ev>, k: nat, st: PassState)
    requires Framed(st, |evs|, k)
  {
    && OwnedOnce(st)
    && TailsValid(evs, st)
    && RemovedCount(st.marks) == SumGrouped(st.marks)
    && Chained(evs, k, st)
  }

  ghost predicate Invariant(evs: seq<Ev>, k: nat, st: PassState)
    requires Framed(st, |evs|, k)
  {
    ShapeInvariant(evs, k, st) && ChainInvariant(evs, k, st)
  }

  // ---------------------------------------------------------------------------
  // The invariant holds after every visit

  lemma {:induction false} LastOfGroupStep(evs: seq<Ev>, i: nat, g: string)
    requires i < |evs|
    ensures LastOfGroup(evs, i + 1, g) == if evs[i].group == Some(g) then Some(i) else LastOfGroup(evs, i, g)
  {
  }

  lemma {:induction false} StartShape(evs: seq<Ev>, range: int)
    ensures ShapeInvariant(evs, 0, Pass(evs, 0, range))
  {
  }

  // The chain lemmas state `ChainInvariant(...) == true` rather than the bare
  // predicate: the verifier then keeps the invariant as one fact instead of splitting
  // its four conjuncts into separate obligations at every use.
  lemma {:induction false} StartChain(evs: seq<Ev>, range: int)
    ensures ChainInvariant(evs, 0, Pass(evs, 0, range)) == true
  {
    StartCounts(|evs|);
  }

  /** The day flag and `lastDay` after a visit. */
  lemma {:induction false} VisitDays(st: PassState, evs: seq<Ev>, i: nat, range: int)
    requires i < |evs| && Framed(st, |evs|, i) && Untouched(st, i) && DaysMarked(evs, i, st)
    ensures Untouched(Visit(st, evs, i, range), i + 1)
    ensures DaysMarked(evs, i + 1, Visit(st, evs, i, range))
  {
  }

  /** How a visit changes the marks, case by case. */
  lemma {:induction false} VisitShape(st: PassState, evs: seq<Ev>, i: nat, range: int)
    requires i < |evs| && Framed(st, |evs|, i) && Untouched(st, i)
    ensures var r := Visit(st, evs, i, range);
      && r.marks[i].isFirstOfDay == (st.lastDay.None? || evs[i].day != st.lastDay.value)
      && (!Truthy(evs[i].group) ==>
            r.groupEvt == st.groupEvt && r.marks == st.marks[i := Unmarked.(isFirstOfDay := r.marks[i].isFirstOfDay)])
      && (Truthy(evs[i].group) && !CanGroup(st, evs, evs[i].group.value, evs[i].ts, range) ==>
            r.groupEvt == st.groupEvt[evs[i].group.value := i]
            && r.marks == st.marks[i := Unmarked.(isFirstOfDay := r.marks[i].isFirstOfDay)])
      && (Truthy(evs[i].group) && CanGroup(st, evs, evs[i].group.value, evs[i].ts, range) ==>
            var rep := st.groupEvt[evs[i].group.value];
            && rep < i
            && r.groupEvt == st.groupEvt
            && r.marks == st.marks[rep := st.marks[rep].(grouped := st.marks[rep].grouped + [i],
                                                         groupLastTs := Some(evs[i].ts))]
                                  [i := Unmarked.(isFirstOfDay := r.marks[i].isFirstOfDay, removed := true)])
  {
  }

  lemma {:induction false} VisitReps(st: PassState, evs: seq<Ev>, i: nat, range: int)
    requires i < |evs| && Framed(st, |evs|, i) && Untouched(st, i) && RepsValid(evs, st)
    ensures RepsValid(evs, Visit(st, evs, i, range))
  {
    VisitShape(st, evs, i, range);
  }

  lemma {:induction false} VisitChildren(st: PassState, evs: seq<Ev>, i: nat, range: int)
    requires i < |evs| && Framed(st, |evs|, i) && Untouched(st, i)
    requires RepsValid(evs, st) && ChildrenValid(evs, st)
    ensures ChildrenValid(evs, Visit(st, evs, i, range))
  {
    if Truthy(evs[i].group) && CanGroup(st, evs, evs[i].group.value, evs[i].ts, range) {
      VisitChildrenFold(st, evs, i, range);
    } else {
      VisitChildrenOther(st, evs, i, range);
    }
  }

  lemma {:induction false} VisitChildrenFold(st: PassState, evs: seq<Ev>, i: nat, range: int)
    requires i < |evs| && Framed(st, |evs|, i) && Untouched(st, i)
    requires RepsValid(evs, st) && ChildrenValid(evs, st)
    requires Truthy(evs[i].group) && CanGroup(st, evs, evs[i].group.value, evs[i].ts, range)
    ensures ChildrenValid(evs, Visit(st, evs, i, range))
  {
    VisitShape(st, evs, i, range);
    var r := Visit(st, evs, i, range);
    FoldChildren(st, evs, i, st.groupEvt[evs[i].group.value], r.marks[i].isFirstOfDay, evs[i].ts, r);
  }

  /** Appending `i` to the list of its representative `rep` and removing `i` keeps the
      folded lists valid. */
  lemma {:induction false} FoldChildren(st: PassState, evs: seq<Ev>, i: nat, rep: nat, first: bool, ts: int,
                                        r: PassState)
    requires i < |evs| && Framed(st, |evs|, i) && st.marks[i] == Unmarked && ChildrenValid(evs, st)
    requires rep < i && evs[rep].group == evs[i].group && !st.marks[rep].removed && Framed(r, |evs|, i + 1)
    requires r.marks == st.marks[rep := st.marks[rep].(grouped := st.marks[rep].grouped + [i], groupLastTs := Some(ts))]
                                [i := Unmarked.(isFirstOfDay := first, removed := true)]
    ensures ChildrenValid(evs, r)
  {
    var n := |evs|;
    var prior := st.marks[rep].grouped;
    assert r.marks[rep].grouped == prior + [i];
    forall q, t | 0 <= q < n && 0 <= t < |r.marks[q].grouped|
      ensures && q < r.marks[q].grouped[t]
              && r.marks[r.marks[q].grouped[t]].removed
              && evs[r.marks[q].grouped[t]].group == evs[q].group
    {
      if q == rep {
        if t < |prior| {
          var c := prior[t];
          assert r.marks[q].grouped[t] == c && c < i && st.marks[c].removed;
          assert c != rep;
        }
      } else {
        assert q != i && r.marks[q] == st.marks[q];
        var c := st.marks[q].grouped[t];
        assert c < i && st.marks[c].removed;
        assert c != rep;
      }
    }
    forall q, t1, t2 | 0 <= q < n && 0 <= t1 < t2 < |r.marks[q].grouped|
      ensures r.marks[q].grouped[t1] < r.marks[q].grouped[t2]
    {
      if q == rep {
        assert prior[t1] < i;
      } else {
        assert q != i && r.marks[q] == st.marks[q];
      }
    }
  }

  lemma {:induction false} VisitChildrenOther(st: PassState, evs: seq<Ev>, i: nat, range: int)
    requires i < |evs| && Framed(st, |evs|, i) && Untouched(st, i)
    requires ChildrenValid(evs, st)
    requires !(Truthy(evs[i].group) && CanGroup(st, evs, evs[i].group.value, evs[i].ts, range))
    ensures ChildrenValid(evs, Visit(st, evs, i, range))
  {
    VisitShape(st, evs, i, range);
    var r := Visit(st, evs, i, range);
    var n := |evs|;
    forall q, t | 0 <= q < n && 0 <= t < |r.marks[q].grouped|
      ensures && q < r.marks[q].grouped[t]
              && r.marks[r.marks[q].grouped[t]].removed
              && evs[r.marks[q].grouped[t]].group == evs[q].group
    {
      assert q != i && r.marks[q] == st.marks[q];
      var c := st.marks[q].grouped[t];
      assert c < i;
    }
    forall q, t1, t2 | 0 <= q < n && 0 <= t1 < t2 < |r.marks[q].grouped|
      ensures r.marks[q].grouped[t1] < r.marks[q].grouped[t2]
    {
      assert q != i && r.marks[q] == st.marks[q];
    }
  }

  lemma {:induction false} VisitRemoved(st: PassState, evs: seq<Ev>, i: nat, range: int)
    requires i < |evs| && Framed(st, |evs|, i) && Untouched(st, i)
    requires RepsValid(evs, st) && RemovedValid(evs, st)
    ensures RemovedValid(evs, Visit(st, evs, i, range))
  {
    VisitShape(st, evs, i, range);
    var r := Visit(st, evs, i, range);
    var merge := Truthy(evs[i].group) && CanGroup(st, evs, evs[i].group.value, evs[i].ts, range);
    forall j | 0 <= j < |evs| && r.marks[j].removed
      ensures && Truthy(evs[j].group) && r.marks[j].grouped == [] && r.marks[j].groupLastTs == None
              && exists q :: 0 <= q < |evs| && j in r.marks[q].grouped
    {
      if j == i {
        assert merge;
        var rep := st.groupEvt[evs[i].group.value];
        assert i == Last(r.marks[rep].grouped);
      } else {
        assert st.marks[j].removed;
        if merge {
          var rep := st.groupEvt[evs[i].group.value];
          assert j != rep;
        }
        assert r.marks[j] == st.marks[j];
        var q :| 0 <= q < |evs| && j in st.marks[q].grouped;
        assert st.marks[q].grouped <= r.marks[q].grouped;
      }
    }
  }

  lemma {:induction false} VisitOwnedOnce(st: PassState, evs: seq<Ev>, i: nat, range: int)
    requires i < |evs| && Framed(st, |evs|, i) && Untouched(st, i) && OwnedOnce(st)
    ensures OwnedOnce(Visit(st, evs, i, range))
  {
    VisitShape(st, evs, i, range);
    var r := Visit(st, evs, i, range);
    var n := |evs|;
    if Truthy(evs[i].group) && CanGroup(st, evs, evs[i].group.value, evs[i].ts, range) {
      var rep := st.groupEvt[evs[i].group.value];
      forall q | 0 <= q < n && q != rep ensures r.marks[q].grouped == st.marks[q].grouped {
      }
      forall q1, q2, j | 0 <= q1 < n && 0 <= q2 < n && j in r.marks[q1].grouped && j in r.marks[q2].grouped
        ensures q1 == q2
      {
        if j != i {
          assert j in st.marks[q1].grouped && j in st.marks[q2].grouped;
        }
      }
    } else {
      forall q | 0 <= q < n ensures r.marks[q].grouped == st.marks[q].grouped {
      }
    }
  }

  lemma {:induction false} VisitTails(st: PassState, evs: seq<Ev>, i: nat, range: int)
    requires i < |evs| && Framed(st, |evs|, i) && Untouched(st, i) && TailsValid(evs, st)
    ensures TailsValid(evs, Visit(st, evs, i, range))
  {
    VisitShape(st, evs, i, range);
    var r := Visit(st, evs, i, range);
    forall q | 0 <= q < |evs|
      ensures TailOf(r, q) == if r.marks[q].grouped == [] then None else Some(evs[Last(r.marks[q].grouped)].ts)
    {
      assert TailOf(st, q) == st.marks[q].groupLastTs;
      if Truthy(evs[i].group) && CanGroup(st, evs, evs[i].group.value, evs[i].ts, range) {
        var rep := st.groupEvt[evs[i].group.value];
        if q == rep {
          assert r.marks[q].grouped == st.marks[rep].grouped + [i];
        } else if q != i {
          assert r.marks[q] == st.marks[q];
        }
      } else if q != i {
        assert r.marks[q] == st.marks[q];
      }
    }
  }

  lemma {:induction false} VisitCounts(st: PassState, evs: seq<Ev>, i: nat, range: int)
    requires i < |evs| && Framed(st, |evs|, i) && Untouched(st, i) && RepsValid(evs, st)
    requires RemovedCount(st.marks) == SumGrouped(st.marks)
    ensures RemovedCount(Visit(st, evs, i, range).marks) == SumGrouped(Visit(st, evs, i, range).marks)
  {
    VisitShape(st, evs, i, range);
    var r := Visit(st, evs, i, range);
    var mi := r.marks[i];
    if Truthy(evs[i].group) && CanGroup(st, evs, evs[i].group.value, evs[i].ts, range) {
      var rep := st.groupEvt[evs[i].group.value];
      var mrep := st.marks[rep].(grouped := st.marks[rep].grouped + [i], groupLastTs := Some(evs[i].ts));
      RemovedCountUpdate(st.marks, rep, mrep);
      SumGroupedUpdate(st.marks, rep, mrep);
      RemovedCountUpdate(st.marks[rep := mrep], i, mi);
      SumGroupedUpdate(st.marks[rep := mrep], i, mi);
    } else {
      RemovedCountUpdate(st.marks, i, mi);
      SumGroupedUpdate(st.marks, i, mi);
    }
  }

  lemma {:induction false} VisitChained(st: PassState, evs: seq<Ev>, i: nat, range: int)
    requires i < |evs| && Framed(st, |evs|, i) && Untouched(st, i)
    requires RepsValid(evs, st) && Chained(evs, i, st)
    ensures Chained(evs, i + 1, Visit(st, evs, i, range))
  {
    VisitShape(st, evs, i, range);
    var r := Visit(st, evs, i, range);
    forall h ensures LastOfGroup(evs, i + 1, h) == if evs[i].group == Some(h) then Some(i) else LastOfGroup(evs, i, h) {
      LastOfGroupStep(evs, i, h);
    }
    if !Truthy(evs[i].group) {
      ChainedUngrouped(st, evs, i, range);
    } else if CanGroup(st, evs, evs[i].group.value, evs[i].ts, range) {
      ChainedMerge(st, evs, i, range);
    } else {
      ChainedNewRep(st, evs, i, range);
    }
  }

  lemma {:induction false} ChainedUngrouped(st: PassState, evs: seq<Ev>, i: nat, range: int)
    requires i < |evs| && Framed(st, |evs|, i) && Untouched(st, i)
    requires RepsValid(evs, st) && Chained(evs, i, st) && !Truthy(evs[i].group)
    ensures Chained(evs, i + 1, Visit(st, evs, i, range))
  {
    VisitShape(st, evs, i, range);
    var r := Visit(st, evs, i, range);
    forall h | h != "" ensures LastOfGroup(evs, i + 1, h) == LastOfGroup(evs, i, h) {
      LastOfGroupStep(evs, i, h);
    }
    forall h | h in r.groupEvt ensures r.marks[r.groupEvt[h]].grouped == st.marks[st.groupEvt[h]].grouped {
      assert st.groupEvt[h] < i;
    }
  }

  lemma {:induction false} ChainedNewRep(st: PassState, evs: seq<Ev>, i: nat, range: int)
    requires i < |evs| && Framed(st, |evs|, i) && Untouched(st, i)
    requires RepsValid(evs, st) && Chained(evs, i, st)
    requires Truthy(evs[i].group) && !CanGroup(st, evs, evs[i].group.value, evs[i].ts, range)
    ensures Chained(evs, i + 1, Visit(st, evs, i, range))
  {
    VisitShape(st, evs, i, range);
    var g := evs[i].group.value;
    var r := Visit(st, evs, i, range);
    assert r.groupEvt == st.groupEvt[g := i] && r.marks[i].grouped == [];
    forall h ensures h in r.groupEvt <==> h != "" && LastOfGroup(evs, i + 1, h).Some? {
      LastOfGroupStep(evs, i, h);
    }
    forall h | h in r.groupEvt
      ensures var p, q := LastOfGroup(evs, i + 1, h).value, r.groupEvt[h];
        (q == p && r.marks[q].grouped == []) || (r.marks[q].grouped != [] && Last(r.marks[q].grouped) == p)
    {
      LastOfGroupStep(evs, i, h);
      if h != g {
        assert st.groupEvt[h] < i;
        assert r.groupEvt[h] == st.groupEvt[h] && r.marks[r.groupEvt[h]] == st.marks[st.groupEvt[h]];
      }
    }
  }

  lemma {:induction false} ChainedMerge(st: PassState, evs: seq<Ev>, i: nat, range: int)
    requires i < |evs| && Framed(st, |evs|, i) && Untouched(st, i)
    requires RepsValid(evs, st) && Chained(evs, i, st)
    requires Truthy(evs[i].group) && CanGroup(st, evs, evs[i].group.value, evs[i].ts, range)
    ensures Chained(evs, i + 1, Visit(st, evs, i, range))
  {
    VisitShape(st, evs, i, range);
    var g := evs[i].group.value;
    var rep := st.groupEvt[g];
    var r := Visit(st, evs, i, range);
    forall h ensures LastOfGroup(evs, i + 1, h) == if h == g then Some(i) else LastOfGroup(evs, i, h) {
      LastOfGroupStep(evs, i, h);
    }
    assert Last(r.marks[rep].grouped) == i;
    forall h | h in r.groupEvt && h != g
      ensures r.marks[r.groupEvt[h]] == st.marks[st.groupEvt[h]]
    {
      var q := st.groupEvt[h];
      assert q < i;
      assert evs[q].group == Some(h) && evs[rep].group == Some(g);
      assert q != rep;
    }
  }

  /** The first half of the invariant holds after the next visit. */
  lemma {:induction false} StepShape(st: PassState, evs: seq<Ev>, i: nat, range: int, next: PassState)
    requires i < |evs| && Framed(st, |evs|, i) && ShapeInvariant(evs, i, st)
    requires next == Visit(st, evs, i, range)
    ensures ShapeInvariant(evs, i + 1, next)
  {
    VisitDays(st, evs, i, range);
    VisitReps(st, evs, i, range);
    VisitChildren(st, evs, i, range);
    VisitRemoved(st, evs, i, range);
  }

  /** The second half of the invariant holds after the next visit. */
  lemma {:induction false} StepChain(st: PassState, evs: seq<Ev>, i: nat, range: int, next: PassState)
    requires i < |evs| && Framed(st, |evs|, i) && Untouched(st, i) && RepsValid(evs, st)
    requires ChainInvariant(evs, i, st) == true
    requires next == Visit(st, evs, i, range)
    ensures ChainInvariant(evs, i + 1, next) == true
  {
    VisitOwnedOnce(st, evs, i, range);
    VisitTails(st, evs, i, range);
    VisitCounts(st, evs, i, range);
    VisitChained(st, evs, i, range);
  }

  lemma {:induction false} StepShapeAt(evs: seq<Ev>, i: nat, range: int)
    requires i < |evs|
    ensures ShapeInvariant(evs, i + 1, Pass(evs, i + 1, range))
    decreases i + 1, 0
  {
    PassShape(evs, i, range);
    StepShape(Pass(evs, i, range), evs, i, range, Pass(evs, i + 1, range));
  }

  lemma {:induction false} StepChainAt(evs: seq<Ev>, i: nat, range: int)
    requires i < |evs|
    ensures ChainInvariant(evs, i + 1, Pass(evs, i + 1, range)) == true
    decreases i + 1, 0
  {
    PassReps(evs, i, range);
    PassChain(evs, i, range);
    StepChain(Pass(evs, i, range), evs, i, range, Pass(evs, i + 1, range));
  }

  lemma {:induction false} PassShape(evs: seq<Ev>, k: nat, range: int)
    requires k <= |evs|
    ensures ShapeInvariant(evs, k, Pass(evs, k, range))
    decreases k, 1
  {
    if k == 0 {
      StartShape(evs, range);
    } else {
      StepShapeAt(evs, k - 1, range);
    }
  }

  lemma {:induction false} PassReps(evs: seq<Ev>, k: nat, range: int)
    requires k <= |evs|
    ensures Untouched(Pass(evs, k, range), k) && RepsValid(evs, Pass(evs, k, range))
  {
    PassShape(evs, k, range);
  }

  lemma {:induction false} PassChain(evs: seq<Ev>, k: nat, range: int)
    requires k <= |evs|
    ensures ChainInvariant(evs, k, Pass(evs, k, range)) == true
    decreases k, 1
  {
    if k == 0 {
      StartChain(evs, range);
    } else {
      StepChainAt(evs, k - 1, range);
    }
  }

  lemma {:induction false} PassInvariant(evs: seq<Ev>, k: nat, range: int)
    requires k <= |evs|
    ensures Invariant(evs, k, Pass(evs, k, range))
  {
    PassShape(evs, k, range);
    PassChain(evs, k, range);
  }

  lemma {:induction false} PassUntouched(evs: seq<Ev>, k: nat, range: int)
    requires k <= |evs|
    ensures Untouched(Pass(evs, k, range), k)
  {
    if k > 0 {
      var prev := Pass(evs, k - 1, range);
      PassUntouched(evs, k - 1, range);
      assert Pass(evs, k, range) == Visit(prev, evs, k - 1, range);
      VisitUntouched(prev, evs, k - 1, range);
    }
  }

  lemma {:induction false} VisitUntouched(st: PassState, evs: seq<Ev>, i: nat, range: int)
    requires i < |evs| && Framed(st, |evs|, i) && Untouched(st, i)
    ensures Untouched(Visit(st, evs, i, range), i + 1)
  {
    VisitShape(st, evs, i, range);
  }

  /** A visit leaves the `removed` flags of the events before it alone. */
  lemma {:induction false} VisitKeepsRemoved(st: PassState, evs: seq<Ev>, i: nat, range: int, next: PassState)
    requires i < |evs| && Framed(st, |evs|, i) && Untouched(st, i) && next == Visit(st, evs, i, range)
    ensures |next.marks| == |st.marks| && forall j | 0 <= j < i :: next.marks[j].removed == st.marks[j].removed
  {
    VisitShape(st, evs, i, range);
  }

  /** A visit only appends to `grouped` lists. */
  lemma {:induction false} VisitExtendsGrouped(st: PassState, evs: seq<Ev>, i: nat, range: int, next: PassState)
    requires i < |evs| && Framed(st, |evs|, i) && Untouched(st, i) && next == Visit(st, evs, i, range)
    ensures |next.marks| == |st.marks| && forall r | 0 <= r < |evs| :: st.marks[r].grouped <= next.marks[r].grouped
  {
    VisitShape(st, evs, i, range);
    forall r | 0 <= r < |evs| ensures st.marks[r].grouped <= next.marks[r].grouped {
      if Truthy(evs[i].group) && CanGroup(st, evs, evs[i].group.value, evs[i].ts, range)
         && r == st.groupEvt[evs[i].group.value] {
        assert next.marks[r].grouped == st.marks[r].grouped + [i];
      }
    }
  }

  lemma {:induction false} StepKeepsRemoved(evs: seq<Ev>, k: nat, range: int)
    requires 0 < k <= |evs|
    ensures forall j | 0 <= j < k - 1 :: Pass(evs, k, range).marks[j].removed == Pass(evs, k - 1, range).marks[j].removed
  {
    PassUntouched(evs, k - 1, range);
    VisitKeepsRemoved(Pass(evs, k - 1, range), evs, k - 1, range, Pass(evs, k, range));
  }

  lemma {:induction false} StepExtendsGrouped(evs: seq<Ev>, k: nat, range: int)
    requires 0 < k <= |evs|
    ensures forall r | 0 <= r < |evs| :: Pass(evs, k - 1, range).marks[r].grouped <= Pass(evs, k, range).marks[r].grouped
  {
    PassUntouched(evs, k - 1, range);
    VisitExtendsGrouped(Pass(evs, k - 1, range), evs, k - 1, range, Pass(evs, k, range));
  }

  lemma PrefixTrans(a: seq<nat>, b: seq<nat>, c: seq<nat>)
    requires a <= b && b <= c
    ensures a <= c
  {
    assert c[..|b|][..|a|] == c[..|a|];
  }

  lemma InPrefix(x: nat, a: seq<nat>, b: seq<nat>)
    requires a <= b && x in a
    ensures x in b
  {
    var t :| 0 <= t < |a| && a[t] == x;
    assert b[t] == x;
  }

  /** Once visited, an event's `removed` flag does not change. */
  lemma {:induction false} PassKeepsRemoved(evs: seq<Ev>, k1: nat, k2: nat, range: int)
    requires k1 <= k2 <= |evs|
    ensures forall j | 0 <= j < k1 ::
      Pass(evs, k2, range).marks[j].removed == Pass(evs, k1, range).marks[j].removed
    decreases k2
  {
    if k1 < k2 {
      PassKeepsRemoved(evs, k1, k2 - 1, range);
      StepKeepsRemoved(evs, k2, range);
    }
  }

  /** `grouped` lists only grow at their end. */
  lemma {:induction false} PassExtendsGrouped(evs: seq<Ev>, k1: nat, k2: nat, range: int)
    requires k1 <= k2 <= |evs|
    ensures forall r | 0 <= r < |evs| ::
      Pass(evs, k1, range).marks[r].grouped <= Pass(evs, k2, range).marks[r].grouped
    decreases k2
  {
    if k1 < k2 {
      PassExtendsGrouped(evs, k1, k2 - 1, range);
      StepExtendsGrouped(evs, k2, range);
      forall r | 0 <= r < |evs|
        ensures Pass(evs, k1, range).marks[r].grouped <= Pass(evs, k2, range).marks[r].grouped
      {
        PrefixTrans(Pass(evs, k1, range).marks[r].grouped, Pass(evs, k2 - 1, range).marks[r].grouped,
                    Pass(evs, k2, range).marks[r].grouped);
      }
    }
  }

  ghost predicate SortedByTs(evs: seq<Ev>) {
    forall a, b | 0 <= a < b < |evs| :: evs[a].ts >= evs[b].ts
  }

  /** The first visited event is marked as first of its day; any later one is marked
      exactly when its day differs from that of the event visited just before it,
      whether or not either of them is removed afterwards. */
  lemma FirstOfDay(evs: seq<Ev>, range: int, i: nat)
    requires i < |evs|
    ensures Final(evs, range).marks[i].isFirstOfDay <==> (i == 0 || evs[i].day != evs[i - 1].day)
  {
    PassInvariant(evs, |evs|, range);
    DaysAt(evs, Final(evs, range), i);
  }

  lemma DaysAt(evs: seq<Ev>, st: PassState, i: nat)
    requires i < |evs| && |st.marks| == |evs| && DaysMarked(evs, |evs|, st)
    ensures st.marks[i].isFirstOfDay == (i == 0 || evs[i].day != evs[i - 1].day)
  {
  }

  /** No event is lost: the kept events plus the events folded into them are all the
      events of the list. */
  lemma Conservation(evs: seq<Ev>, range: int)
    ensures |Survivors(Final(evs, range).marks)| + SumGrouped(Final(evs, range).marks) == |evs|
  {
    PassInvariant(evs, |evs|, range);
  }

  /** An event is removed exactly when it is folded into a kept event, and it is folded
      into one event only. */
  lemma RemovedHaveOneOwner(evs: seq<Ev>, range: int, j: nat)
    requires j < |evs|
    ensures var m := Final(evs, range).marks;
      m[j].removed <==> exists r :: 0 <= r < |evs| && !m[r].removed && j in m[r].grouped
    ensures var m := Final(evs, range).marks;
      forall r1, r2 | 0 <= r1 < |evs| && 0 <= r2 < |evs| && j in m[r1].grouped && j in m[r2].grouped :: r1 == r2
  {
    PassInvariant(evs, |evs|, range);
    var m := Final(evs, range).marks;
    if m[j].removed {
      var r :| 0 <= r < |evs| && j in m[r].grouped;
      assert m[r].grouped != [];
      assert !m[r].removed;
    }
    forall r | 0 <= r < |evs| && j in m[r].grouped ensures m[j].removed {
      var t :| 0 <= t < |m[r].grouped| && m[r].grouped[t] == j;
    }
  }

  /** An event without a (non-empty) group is never removed and never receives
      folded events. */
  lemma UngroupedStandAlone(evs: seq<Ev>, range: int, i: nat)
    requires i < |evs| && !Truthy(evs[i].group)
    ensures !Final(evs, range).marks[i].removed && Final(evs, range).marks[i].grouped == []
  {
    PassInvariant(evs, |evs|, range);
    NoChildrenWithoutGroup(evs, Final(evs, range), i);
  }

  lemma NoChildrenWithoutGroup(evs: seq<Ev>, st: PassState, i: nat)
    requires i < |evs| && Framed(st, |evs|, |evs|) && ChildrenValid(evs, st) && RemovedValid(evs, st)
    requires !Truthy(evs[i].group)
    ensures st.marks[i].grouped == []
  {
    HeadIn(st.marks[i].grouped);
  }

  lemma HeadIn<T>(s: seq<T>)
    ensures s != [] ==> s[0] in s
  {
  }

  /** The events folded into one event come after it, share its group and are listed in
      visiting order, hence (on a time-sorted list) in descending time order; its
      `groupLastTs` is the timestamp of the last of them. */
  lemma GroupedInOrder(evs: seq<Ev>, range: int, r: nat)
    requires r < |evs|
    ensures var m := Final(evs, range).marks[r];
      && (forall t | 0 <= t < |m.grouped| :: r < m.grouped[t] < |evs| && evs[m.grouped[t]].group == evs[r].group)
      && (forall t1, t2 | 0 <= t1 < t2 < |m.grouped| :: m.grouped[t1] < m.grouped[t2])
      && m.groupLastTs == (if m.grouped == [] then None else Some(evs[Last(m.grouped)].ts))
    ensures var m := Final(evs, range).marks[r];
      SortedByTs(evs) ==>
        && (forall t | 0 <= t < |m.grouped| :: evs[r].ts >= evs[m.grouped[t]].ts)
        && (forall t1, t2 | 0 <= t1 < t2 < |m.grouped| :: evs[m.grouped[t1]].ts >= evs[m.grouped[t2]].ts)
  {
    PassInvariant(evs, |evs|, range);
    assert TailOf(Final(evs, range), r) == Final(evs, range).marks[r].groupLastTs;
  }

  /** The kept events stay in list order, hence in descending time order. */
  lemma KeptInOrder(evs: seq<Ev>, range: int)
    requires SortedByTs(evs)
    ensures var s := Survivors(Final(evs, range).marks);
      forall a, b | 0 <= a < b < |s| :: s[a] < s[b] && evs[s[a]].ts >= evs[s[b]].ts
  {
  }

  /** The first event of a group becomes its representative. */
  lemma {:induction false} ChainStepFirst(st: PassState, evs: seq<Ev>, i: nat, range: int)
    requires i < |evs| && Framed(st, |evs|, i) && Untouched(st, i) && Chained(evs, i, st)
    requires Truthy(evs[i].group) && LastOfGroup(evs, i, evs[i].group.value).None?
    ensures !Visit(st, evs, i, range).marks[i].removed
  {
    VisitShape(st, evs, i, range);
    assert evs[i].group.value !in st.groupEvt;
  }

  /** A later event of a group is folded exactly when it lies within the window of the
      group's chain tail, which is the previous event of the group. */
  lemma {:induction false} ChainStepWindow(st: PassState, evs: seq<Ev>, i: nat, range: int, p: nat)
    requires i < |evs| && Framed(st, |evs|, i) && Untouched(st, i)
    requires ChildrenValid(evs, st) && TailsValid(evs, st) && Chained(evs, i, st)
    requires Truthy(evs[i].group) && LastOfGroup(evs, i, evs[i].group.value) == Some(p)
    requires evs[p].ts != 0 || !st.marks[p].removed
    ensures Visit(st, evs, i, range).marks[i].removed <==> evs[p].ts - evs[i].ts <= range
  {
    var g := evs[i].group.value;
    VisitShape(st, evs, i, range);
    assert g in st.groupEvt;
    var r := st.groupEvt[g];
    if st.marks[r].grouped != [] && Last(st.marks[r].grouped) == p {
      var t := |st.marks[r].grouped| - 1;
      assert st.marks[r].grouped[t] == p;
      assert st.marks[p].removed;
      assert TailOf(st, r) == Some(evs[p].ts);
      assert ChainTail(st.marks[r], evs[r].ts) == evs[p].ts;
    } else {
      assert r == p && TailOf(st, r) == None;
    }
  }

  /** A folded event joins the representative of the previous event of its group. */
  lemma {:induction false} ChainStepJoin(st: PassState, evs: seq<Ev>, i: nat, range: int, p: nat)
    requires i < |evs| && Framed(st, |evs|, i) && Untouched(st, i) && Chained(evs, i, st)
    requires Truthy(evs[i].group) && LastOfGroup(evs, i, evs[i].group.value) == Some(p)
    requires Visit(st, evs, i, range).marks[i].removed
    ensures exists r :: 0 <= r < |evs| && i in Visit(st, evs, i, range).marks[r].grouped
                        && (r == p || p in st.marks[r].grouped)
  {
    var g := evs[i].group.value;
    VisitShape(st, evs, i, range);
    var after := Visit(st, evs, i, range);
    var r := st.groupEvt[g];
    assert i == Last(after.marks[r].grouped);
    assert i in after.marks[r].grouped;
    if r != p {
      var t := |st.marks[r].grouped| - 1;
      assert st.marks[r].grouped[t] == p;
    }
  }

  /** The grouping window is measured from the group's chain tail: an event of group `g`
      is folded exactly when an earlier event of `g` exists and the last such event `p`
      lies within `range` seconds before it (unless `p` was itself folded and has the
      falsy timestamp 0); it then joins the same representative as `p`. The first event
      of a group is always kept. */
  lemma ChainRule(evs: seq<Ev>, range: int, i: nat)
    requires i < |evs| && Truthy(evs[i].group)
    ensures var m := Final(evs, range).marks;
      LastOfGroup(evs, i, evs[i].group.value).None? ==> !m[i].removed
    ensures var m := Final(evs, range).marks;
      LastOfGroup(evs, i, evs[i].group.value).Some? ==>
        var p := LastOfGroup(evs, i, evs[i].group.value).value;
        && ((evs[p].ts != 0 || !m[p].removed) ==> (m[i].removed <==> evs[p].ts - evs[i].ts <= range))
        && (m[i].removed ==> exists r :: 0 <= r < |evs| && i in m[r].grouped && (r == p || p in m[r].grouped))
  {
    var g := evs[i].group.value;
    var st := Pass(evs, i, range);
    var after := Pass(evs, i + 1, range);
    ChainAtVisit(evs, range, i);
    var m := Final(evs, range).marks;
    RemovedStays(evs, i + 1, range, i);
    if LastOfGroup(evs, i, g).Some? {
      var p := LastOfGroup(evs, i, g).value;
      RemovedStays(evs, i, range, p);
      if m[i].removed {
        var r :| 0 <= r < |evs| && i in after.marks[r].grouped && (r == p || p in st.marks[r].grouped);
        JoinStays(evs, range, i, p, r);
      }
    }
  }

  /** The representative that event `i` joined when it was visited still holds both `i`
      and, unless it is `p` itself, `p` at the end of the pass. */
  lemma JoinStays(evs: seq<Ev>, range: int, i: nat, p: nat, r: nat)
    requires p < i < |evs| && r < |evs|
    requires i in Pass(evs, i + 1, range).marks[r].grouped
    requires r == p || p in Pass(evs, i, range).marks[r].grouped
    ensures i in Final(evs, range).marks[r].grouped
    ensures r == p || p in Final(evs, range).marks[r].grouped
  {
    GroupedStays(evs, i + 1, range, Pass(evs, i + 1, range), r, i);
    if r != p {
      GroupedStays(evs, i, range, Pass(evs, i, range), r, p);
    }
  }

  /** The final `removed` flag of a visited event is the one it had after `k` steps. */
  lemma RemovedStays(evs: seq<Ev>, k: nat, range: int, j: nat)
    requires j < k <= |evs|
    ensures Final(evs, range).marks[j].removed == Pass(evs, k, range).marks[j].removed
  {
    PassKeepsRemoved(evs, k, |evs|, range);
  }

  /** An event folded into `r` within the first `k` steps is still folded into `r` at the end. */
  lemma GroupedStays(evs: seq<Ev>, k: nat, range: int, st: PassState, r: nat, x: nat)
    requires k <= |evs| && st == Pass(evs, k, range) && r < |evs| && x in st.marks[r].grouped
    ensures x in Final(evs, range).marks[r].grouped
  {
    PassExtendsGrouped(evs, k, |evs|, range);
    InPrefix(x, st.marks[r].grouped, Final(evs, range).marks[r].grouped);
  }

  /** The chain rule at the step that visits event `i`. */
  lemma ChainAtVisit(evs: seq<Ev>, range: int, i: nat)
    requires i < |evs| && Truthy(evs[i].group)
    ensures var st := Pass(evs, i, range);
      var after := Pass(evs, i + 1, range);
      var q := LastOfGroup(evs, i, evs[i].group.value);
      && (q.None? ==> !after.marks[i].removed)
      && (q.Some? ==>
            && ((evs[q.value].ts != 0 || !st.marks[q.value].removed) ==>
                  (after.marks[i].removed <==> evs[q.value].ts - evs[i].ts <= range))
            && (after.marks[i].removed ==>
                  exists r :: 0 <= r < |evs| && i in after.marks[r].grouped
                              && (r == q.value || q.value in st.marks[r].grouped)))
  {
    var g := evs[i].group.value;
    var st := Pass(evs, i, range);
    PassInvariant(evs, i, range);
    assert Pass(evs, i + 1, range) == Visit(st, evs, i, range);
    if LastOfGroup(evs, i, g).None? {
      ChainStepFirst(st, evs, i, range);
    } else {
      var p := LastOfGroup(evs, i, g).value;
      if evs[p].ts != 0 || !st.marks[p].removed {
        ChainStepWindow(st, evs, i, range, p);
      }
      if Visit(st, evs, i, range).marks[i].removed {
        ChainStepJoin(st, evs, i, range, p);
      }
    }
  }

  /** A list on which the day flag of the kept events differs from a comparison of
      consecutive kept events: the second event is folded into the first and takes the
      flag of day 1, so the third event is not flagged. */
  const FoldedDayList := [Ev(1000, 2, Some("g")), Ev(900, 1, Some("g")), Ev(800, 1, None)]

  const AfterFirstVisit := PassState([Mark(true, [], None, false), Unmarked, Unmarked], map["g" := 0], Some(2))

  const AfterSecondVisit :=
    PassState([Mark(true, [1], Some(900), false), Mark(true, [], None, true), Unmarked], map["g" := 0], Some(1))

  lemma FirstVisitOfExample()
    ensures Pass(FoldedDayList, 1, 300) == AfterFirstVisit
  {
    assert Start(3).marks == [Unmarked, Unmarked, Unmarked];
  }

  lemma SecondVisitOfExample()
    ensures Visit(AfterFirstVisit, FoldedDayList, 1, 300) == AfterSecondVisit
  {
    assert CanGroup(AfterFirstVisit, FoldedDayList, "g", 900, 300);
    var r := Visit(AfterFirstVisit, FoldedDayList, 1, 300);
    assert |r.marks| == 3;
    assert r.marks[0] == AfterSecondVisit.marks[0];
    assert r.marks[1] == AfterSecondVisit.marks[1];
    assert r.marks[2] == AfterSecondVisit.marks[2];
  }

  lemma ThirdVisitOfExample()
    ensures Visit(AfterSecondVisit, FoldedDayList, 2, 300) == AfterSecondVisit
  {
  }

  /** On `FoldedDayList` the kept events are the first and the third; the folded second
      event carries the flag of day 1 and the third, whose day differs from the first's,
      carries none. */
  lemma DayFlagOnFoldedEvent()
    ensures var m := Final(FoldedDayList, 300).marks;
      && Survivors(m) == [0, 2]
      && m[1].removed && m[1].isFirstOfDay
      && FoldedDayList[0].day != FoldedDayList[2].day && !m[2].isFirstOfDay
  {
    FirstVisitOfExample();
    SecondVisitOfExample();
    ThirdVisitOfExample();
    assert Pass(FoldedDayList, 3, 300) == AfterSecondVisit;
    var m := AfterSecondVisit.marks;
    assert m[..2][..1] == [m[0]];
    assert Survivors(m) == [0, 2];
  }
}
