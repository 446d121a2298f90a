/**
 * No stranded row: from every reachable state, whatever crashed before, one worker alone can go on, with oldest-first
 * fetches only, until every event that was not terminal is published.
 */
module Recovery {
  import opened OutboxTypes
  import opened LeaseProtocol
  import opened LeaseSafety
  import opened Batches

  /** A run of worker steps and ticks, without crashes, in which every lease statement takes an oldest-first batch. */
  ghost predicate OrderlyRun(c: Config, s: State, acts: seq<Action>)
    decreases |acts|
  {
    acts == [] ||
    (&& Enabled(c, s, acts[0]) && !acts[0].Insert? && !acts[0].Crash?
     && (acts[0].Fetch? ==> OldestBatch(s.rows, acts[0].at, c.limit, PickIds(acts[0].picks)))
     && OrderlyRun(c, Apply(c, s, acts[0]), acts[1..]))
  }

  ghost predicate Reaches(c: Config, s: State, acts: seq<Action>, s': State) {
    OrderlyRun(c, s, acts) && ValidRun(c, s, acts) && Exec(c, s, acts) == s'
  }

  lemma {:induction false} ReachesThen(c: Config, s: State, acts: seq<Action>, s1: State, more: seq<Action>, s2: State)
    requires Reaches(c, s, acts, s1) && Reaches(c, s1, more, s2)
    ensures Reaches(c, s, acts + more, s2)
    decreases |acts|
  {
    if acts == [] {
      assert acts + more == more;
    } else {
      assert (acts + more)[1..] == acts[1..] + more;
      ReachesThen(c, Apply(c, s, acts[0]), acts[1..], s1, more, s2);
    }
  }

  lemma OneAction(c: Config, s: State, a: Action)
    requires Enabled(c, s, a) && !a.Insert? && !a.Crash?
    requires a.Fetch? ==> OldestBatch(s.rows, a.at, c.limit, PickIds(a.picks))
    ensures Reaches(c, s, [a], Apply(c, s, a))
  {
    assert [a][1..] == [];
  }

  // ---------------------------------------------------------------------------------------------------------
  // Publishing a batch without delay
  // ---------------------------------------------------------------------------------------------------------

  lemma PublishOne(c: Config, s: State, w: nat, pos: nat) returns (acts: seq<Action>, s': State)
    requires ReadyAt(c, s, w, pos) && pos < |s.workers[w].items|
    ensures Reaches(c, s, acts, s') && ReadyAt(c, s', w, pos + 1)
    ensures s'.now == s.now && s'.workers[w].items == s.workers[w].items
    ensures var id := s.workers[w].items[pos].id;
            id in s.rows && s'.rows == s.rows[id := PublishedRow(s.rows[id], s.now)]
  {
    hide Enabled, Apply, Reaches, ReadyAt;
    var s1, s2, s3;
    s1, s2, s3, s' := AttemptNow(c, s, w, pos, Success);
    var mark := Mark(w, Acked, s.now, 0);
    OneAction(c, s, Check(w));
    OneAction(c, s1, Start(w));
    ReachesThen(c, s, [Check(w)], s1, [Start(w)], s2);
    OneAction(c, s2, End(w, Success));
    ReachesThen(c, s, [Check(w)] + [Start(w)], s2, [End(w, Success)], s3);
    OneAction(c, s3, mark);
    acts := [Check(w)] + [Start(w)] + [End(w, Success)];
    ReachesThen(c, s, acts, s3, [mark], s');
    acts := acts + [mark];
  }

  ghost predicate InBatch(items: seq<Item>, pos: nat, id: Id) {
    exists i | pos <= i < |items| :: items[i].id == id
  }

  /** The rows of the rest of the batch end published, all others stay as they are. */
  ghost predicate Delivered(rows: map<Id, Row>, rows': map<Id, Row>, items: seq<Item>, pos: nat) {
    && rows'.Keys == rows.Keys
    && (forall id | id in rows ::
          if InBatch(items, pos, id) then rows'[id].status.Published? else rows'[id] == rows[id])
  }

  lemma {:induction false} PublishBatch(c: Config, s: State, w: nat, pos: nat) returns (acts: seq<Action>, s': State)
    requires ReadyAt(c, s, w, pos) && pos <= |s.workers[w].items|
    ensures Reaches(c, s, acts, s') && ReadyAt(c, s', w, |s.workers[w].items|)
    ensures s'.now == s.now && s'.workers[w].items == s.workers[w].items
    ensures Delivered(s.rows, s'.rows, s.workers[w].items, pos)
    decreases |s.workers[w].items| - pos
  {
    var items := s.workers[w].items;
    if pos == |items| {
      acts, s' := [], s;
    } else {
      var first, s1 := PublishOne(c, s, w, pos);
      var rest;
      rest, s' := PublishBatch(c, s1, w, pos + 1);
      ReachesThen(c, s, first, s1, rest, s');
      acts := first + rest;
      assert UpToDate(s, items[pos]);
      DeliveredMore(s.rows, s1.rows, s'.rows, items, pos, s.now);
    }
  }

  lemma DeliveredMore(rows: map<Id, Row>, rows1: map<Id, Row>, rows2: map<Id, Row>, items: seq<Item>, pos: nat,
                      now: Time)
    requires pos < |items| && items[pos].id in rows
    requires rows1 == rows[items[pos].id := PublishedRow(rows[items[pos].id], now)]
    requires Delivered(rows1, rows2, items, pos + 1)
    ensures Delivered(rows, rows2, items, pos)
  {
    forall id | id in rows
      ensures if InBatch(items, pos, id) then rows2[id].status.Published? else rows2[id] == rows[id]
    {
      if InBatch(items, pos, id) && id != items[pos].id {
        var i :| pos <= i < |items| && items[i].id == id;
        assert InBatch(items, pos + 1, id);
      }
      assert InBatch(items, pos + 1, id) ==> InBatch(items, pos, id);
    }
  }

  // ---------------------------------------------------------------------------------------------------------
  // An oldest-first batch always exists
  // ---------------------------------------------------------------------------------------------------------

  function EligibleIds(rows: map<Id, Row>, at: Time): set<Id> {
    set id | id in rows && Eligible(rows[id], at)
  }

  /** Any set of rows can be listed oldest first. */
  lemma {:induction false} ListOldest(rows: map<Id, Row>, ids: set<Id>) returns (list: seq<Id>)
    requires forall id | id in ids :: id in rows
    ensures DistinctIds(list) && IdSet(list) == ids
    ensures forall i | 0 <= i < |list| :: list[i] in rows
    ensures forall i, j | 0 <= i < j < |list| :: rows[list[i]].createdAt <= rows[list[j]].createdAt
    decreases |ids|
  {
    if ids == {} {
      list := [];
    } else {
      var oldest := Oldest(rows, ids);
      var rest := ListOldest(rows, ids - {oldest});
      list := [oldest] + rest;
      assert forall i | 0 <= i < |rest| :: rest[i] in IdSet(rest);
      assert IdSet(list) == {oldest} + IdSet(rest);
    }
  }

  lemma {:induction false} Oldest(rows: map<Id, Row>, ids: set<Id>) returns (x: Id)
    requires ids != {} && forall id | id in ids :: id in rows
    ensures x in ids && forall id | id in ids :: rows[x].createdAt <= rows[id].createdAt
    decreases |ids|
  {
    var y :| y in ids;
    if ids == {y} {
      x := y;
    } else {
      assert ids - {y} != {};
      var z := Oldest(rows, ids - {y});
      x := if rows[y].createdAt <= rows[z].createdAt then y else z;
    }
  }

  lemma OldestFirstExists(rows: map<Id, Row>, at: Time) returns (todo: seq<Id>)
    ensures OldestFirst(rows, at, todo)
  {
    todo := ListOldest(rows, EligibleIds(rows, at));
    forall i | 0 <= i < |todo| ensures Eligible(rows[todo[i]], at) {
      assert todo[i] in IdSet(todo);
    }
    forall id | id in rows && Eligible(rows[id], at) ensures id in todo {
      assert id in IdSet(todo);
    }
  }

  /** An undisturbed fetch of the k oldest eligible rows, at this very moment. */
  lemma FetchOldest(c: Config, s: State, w: nat) returns (a: Action, ids: seq<Id>)
    requires Safe(c, s) && w < |s.workers| && s.workers[w].Idle? && 1 <= c.limit
    requires EligibleIds(s.rows, s.now) != {}
    ensures a.Fetch? && a.w == w && a.at == s.now && Enabled(c, s, a)
    ensures PickIds(a.picks) == ids && ids != []
    ensures OldestBatch(s.rows, s.now, c.limit, ids)
  {
    hide Safe, Enabled;
    var todo := OldestFirstExists(s.rows, s.now);
    var k := if |todo| <= c.limit then |todo| else c.limit;
    ids := todo[..k];
    a := FetchNow(c, s, w, ids);
    TakeOldest(s.rows, s.now, c.limit, todo, k);
  }

  lemma TakeOldest(rows: map<Id, Row>, at: Time, limit: nat, todo: seq<Id>, k: nat)
    requires OldestFirst(rows, at, todo) && EligibleIds(rows, at) != {} && 1 <= limit
    requires k == if |todo| <= limit then |todo| else limit
    ensures k > 0 && OldestBatch(rows, at, limit, todo[..k])
  {
    hide OldestBatch;
    var some :| some in EligibleIds(rows, at);
    assert some in todo;
    OldestPrefix(rows, at, limit, todo, k, todo[..k]);
  }

  lemma FetchLeavesOthers(c: Config, s: State, a: Action, ids: seq<Id>)
    requires a.Fetch? && Enabled(c, s, a) && PickIds(a.picks) == ids
    ensures var s' := Apply(c, s, a);
            && s'.rows.Keys == s.rows.Keys
            && (forall id | id in s.rows && id !in ids :: s'.rows[id] == s.rows[id])
  {
    var s0 := Opened(s, a.w, a.at);
    GrantAllBudget(c, s0, a.w, a.at, a.picks);
    forall id | id in s.rows && id !in ids ensures Apply(c, s, a).rows[id] == s.rows[id] {
      assert forall i | 0 <= i < |a.picks| :: a.picks[i].id == ids[i];
      GrantAllFrame(c, s0, a.w, a.at, a.picks, id);
    }
  }

  /** Every row that can still be published may be leased right now, and worker w is free to do it. */
  ghost predicate AllDue(c: Config, s: State, w: nat) {
    && Safe(c, s) && w < |s.workers| && s.workers[w].Idle?
    && (forall id | id in s.rows && !s.rows[id].status.IsTerminal() :: Eligible(s.rows[id], s.now))
  }

  /** Between the two tables nothing happened but live rows being published. */
  ghost predicate OnlyPublished(rows: map<Id, Row>, rows': map<Id, Row>) {
    && rows'.Keys == rows.Keys
    && (forall id | id in rows ::
          rows'[id] == rows[id] || (!rows[id].status.IsTerminal() && rows'[id].status.Published?))
  }

  lemma EndBatch(c: Config, s: State, w: nat)
    requires Safe(c, s) && IsBusy(s, w) && s.workers[w].phase.Ready? && s.workers[w].pos == |s.workers[w].items|
    ensures Enabled(c, s, Finish(w)) && Reaches(c, s, [Finish(w)], Apply(c, s, Finish(w)))
    ensures var s' := Apply(c, s, Finish(w));
            && Safe(c, s') && s'.rows == s.rows && s'.now == s.now
            && |s'.workers| == |s.workers| && s'.workers[w].Idle?
  {
    StepSafe(c, s, Finish(w));
    hide Safe;
    OneAction(c, s, Finish(w));
  }

  lemma BatchDue(rows: map<Id, Row>, at: Time, limit: nat, ids: seq<Id>)
    requires OldestBatch(rows, at, limit, ids)
    ensures forall i | 0 <= i < |ids| :: ids[i] in rows && Eligible(rows[ids[i]], at)
  {
  }

  /** One batch, published to the end. */
  lemma Round(c: Config, s: State, w: nat) returns (acts: seq<Action>, s': State)
    requires AllDue(c, s, w) && 1 <= c.limit && 1 <= c.lease && EligibleIds(s.rows, s.now) != {}
    ensures Reaches(c, s, acts, s') && AllDue(c, s', w) && OnlyPublished(s.rows, s'.rows)
    ensures EligibleIds(s'.rows, s'.now) < EligibleIds(s.rows, s.now)
  {
    hide Safe, Reaches, Delivered, OldestBatch, Eligible, EligibleIds, OnlyPublished, Apply, Enabled;
    var a, ids := FetchOldest(c, s, w);
    var s1 := Apply(c, s, a);
    OneAction(c, s, a);
    FetchedReady(c, s, a);
    FetchLeavesOthers(c, s, a, ids);
    var more, s2 := PublishBatch(c, s1, w, 0);
    ReachesThen(c, s, [a], s1, more, s2);
    EndBatch(c, s2, w);
    s' := Apply(c, s2, Finish(w));
    ReachesThen(c, s, [a] + more, s2, [Finish(w)], s');
    acts := [a] + more + [Finish(w)];
    assert forall i | 0 <= i < |ids| :: ItemIds(s1.workers[w].items)[i] == ids[i];
    BatchDue(s.rows, s.now, c.limit, ids);
    RoundRows(s.rows, s1.rows, s'.rows, s1.workers[w].items, ids, s.now);
  }

  lemma RoundRows(rows: map<Id, Row>, rows1: map<Id, Row>, rows2: map<Id, Row>, items: seq<Item>, ids: seq<Id>,
                  now: Time)
    requires |items| == |ids| && forall i | 0 <= i < |ids| :: items[i].id == ids[i]
    requires rows1.Keys == rows.Keys && forall id | id in rows && id !in ids :: rows1[id] == rows[id]
    requires Delivered(rows1, rows2, items, 0)
    requires ids != [] && forall i | 0 <= i < |ids| :: ids[i] in rows && Eligible(rows[ids[i]], now)
    requires forall id | id in rows && !rows[id].status.IsTerminal() :: Eligible(rows[id], now)
    ensures OnlyPublished(rows, rows2)
    ensures forall id | id in rows2 && !rows2[id].status.IsTerminal() :: Eligible(rows2[id], now)
    ensures EligibleIds(rows2, now) < EligibleIds(rows, now)
  {
    forall id | id in rows ensures if id in ids then rows2[id].status.Published? else rows2[id] == rows[id] {
      if id in ids {
        var i :| 0 <= i < |ids| && ids[i] == id;
        assert items[i].id == id;
        assert InBatch(items, 0, id);
      } else {
        assert !InBatch(items, 0, id);
      }
    }
    assert ids[0] in EligibleIds(rows, now) && ids[0] !in EligibleIds(rows2, now);
  }

  lemma OnlyPublishedTrans(a: map<Id, Row>, b: map<Id, Row>, d: map<Id, Row>)
    requires OnlyPublished(a, b) && OnlyPublished(b, d)
    ensures OnlyPublished(a, d)
  {
  }

  ghost predicate AllDone(rows: map<Id, Row>) {
    forall id | id in rows :: rows[id].status.IsTerminal()
  }

  lemma {:induction false} Rounds(c: Config, s: State, w: nat) returns (acts: seq<Action>, s': State)
    requires AllDue(c, s, w) && 1 <= c.limit && 1 <= c.lease
    ensures Reaches(c, s, acts, s') && OnlyPublished(s.rows, s'.rows) && AllDone(s'.rows)
    decreases |EligibleIds(s.rows, s.now)|
  {
    if EligibleIds(s.rows, s.now) == {} {
      acts, s' := [], s;
      forall id | id in s.rows ensures s.rows[id].status.IsTerminal() {
        assert id !in EligibleIds(s.rows, s.now);
      }
    } else {
      var first, s1 := Round(c, s, w);
      SubsetSize(EligibleIds(s1.rows, s1.now), EligibleIds(s.rows, s.now));
      var rest;
      rest, s' := Rounds(c, s1, w);
      ReachesThen(c, s, first, s1, rest, s');
      OnlyPublishedTrans(s.rows, s1.rows, s'.rows);
      acts := first + rest;
    }
  }

  lemma {:induction false} WakeBound(rows: map<Id, Row>) returns (bound: Time)
    ensures forall id | id in rows :: WakeTime(rows[id]) <= bound
    decreases |rows|
  {
    if rows == map[] {
      bound := 0;
    } else {
      var id :| id in rows.Keys;
      var b := WakeBound(rows - {id});
      bound := Later(b, WakeTime(rows[id]));
      forall j | j in rows ensures WakeTime(rows[j]) <= bound {
        if j != id {
          assert j in rows - {id};
        }
      }
    }
  }

  /** Wait until every live row is due. */
  lemma WaitForAll(c: Config, s: State, w: nat) returns (d: nat)
    requires Safe(c, s) && w < |s.workers| && s.workers[w].Idle?
    ensures AllDue(c, Apply(c, s, Tick(d)), w)
  {
    var bound := WakeBound(s.rows);
    d := if bound <= s.now then 0 else bound - s.now;
    StepSafe(c, s, Tick(d));
    forall id | id in s.rows && !s.rows[id].status.IsTerminal() ensures Eligible(s.rows[id], s.now + d) {
      assert RowOk(c, s, id, s.rows[id]);
    }
  }

  /** What a busy worker does next when publishing works; a failure it has yet to record finds the database refusing. */
  function NextAction(s: State, w: nat): Action
    requires IsBusy(s, w)
  {
    var wk := s.workers[w];
    if wk.pos >= |wk.items| then Finish(w)
    else
      match wk.phase
      case Ready => Check(w)
      case Checked => Start(w)
      case Publishing => End(w, Success)
      case Returned(Success) => Mark(w, Acked, s.now, 0)
      case Returned(Failure(_)) => Mark(w, Refused, s.now, 0)
  }

  function StepsLeft(p: Phase): nat {
    match p
    case Ready => 3
    case Checked => 2
    case Publishing => 1
    case Returned(_) => 0
  }

  lemma NextActionAdvances(c: Config, s: State, w: nat)
    requires Safe(c, s) && IsBusy(s, w)
    ensures var a := NextAction(s, w);
            && Enabled(c, s, a) && !a.Insert? && !a.Crash? && !a.Fetch?
            && (var s', wk := Apply(c, s, a), s.workers[w];
                && |s'.workers| == |s.workers| && OnlyPublished(s.rows, s'.rows)
                && (s'.workers[w].Busy? ==>
                      var wk' := s'.workers[w];
                      && |wk'.items| == |wk.items|
                      && (wk'.pos == wk.pos + 1 || (wk'.pos == wk.pos && StepsLeft(wk'.phase) < StepsLeft(wk.phase)))))
  {
    hide SlotsUnique, SnapshotOrStale;
    assert WorkerOk(c, s, s.workers[w]);
    if AtItem(s, w) && Matches(s.rows, Current(s, w).id, Current(s, w).token) {
      assert RowOk(c, s, Current(s, w).id, s.rows[Current(s, w).id]);
    }
  }

  /** Every busy worker can go on to the end of its batch without crashing. */
  lemma {:induction false} FinishBatch(c: Config, s: State, w: nat) returns (acts: seq<Action>, s': State)
    requires Safe(c, s) && w < |s.workers|
    ensures Reaches(c, s, acts, s') && Safe(c, s') && OnlyPublished(s.rows, s'.rows)
    ensures |s'.workers| == |s.workers| && s'.workers[w].Idle?
    decreases if s.workers[w].Idle? then 0 else 1,
              if s.workers[w].Idle? then 0 else |s.workers[w].items| - s.workers[w].pos,
              if s.workers[w].Idle? then 0 else StepsLeft(s.workers[w].phase)
  {
    if s.workers[w].Idle? {
      acts, s' := [], s;
    } else {
      var a := NextAction(s, w);
      NextActionAdvances(c, s, w);
      assert WorkerOk(c, s, s.workers[w]);
      var s1 := Apply(c, s, a);
      StepSafe(c, s, a);
      assert WorkerOk(c, s1, s1.workers[w]);
      OneAction(c, s, a);
      hide Safe, Reaches, Apply, OnlyPublished, Enabled;
      var rest;
      rest, s' := FinishBatch(c, s1, w);
      ReachesThen(c, s, [a], s1, rest, s');
      OnlyPublishedTrans(s.rows, s1.rows, s'.rows);
      acts := [a] + rest;
    }
  }

  /**
   * From every reachable state and for any worker there is a continuation of worker steps and ticks, without crashes
   * and with oldest-first fetches throughout, after which every event that was not terminal is PUBLISHED and every
   * terminal one is untouched.
   */
  lemma EveryRowCanBePublished(c: Config, start: Time, n: nat, past: seq<Action>, w: nat)
    returns (acts: seq<Action>, s': State)
    requires ValidRun(c, Init(start, n), past) && w < |Exec(c, Init(start, n), past).workers|
    requires 1 <= c.limit && 1 <= c.lease
    ensures var s := Exec(c, Init(start, n), past);
            && Reaches(c, s, acts, s') && OnlyPublished(s.rows, s'.rows) && AllDone(s'.rows)
  {
    var s := Exec(c, Init(start, n), past);
    InitSafe(c, start, n);
    RunSafe(c, Init(start, n), past);
    var s0 := s;
    acts := [];
    if s.workers[w].Busy? {
      acts, s0 := FinishBatch(c, s, w);
    }
    var d := WaitForAll(c, s0, w);
    var s1 := Apply(c, s0, Tick(d));
    OneAction(c, s0, Tick(d));
    ReachesThen(c, s, acts, s0, [Tick(d)], s1);
    var rest;
    rest, s' := Rounds(c, s1, w);
    ReachesThen(c, s, acts + [Tick(d)], s1, rest, s');
    OnlyPublishedTrans(s.rows, s1.rows, s'.rows);
    acts := acts + [Tick(d)] + rest;
  }
}
