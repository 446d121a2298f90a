/**
 * Failing events cannot stall the queue: with any number of workers, as long as marks succeed and no lease runs out
 * while its event is held, an eligible row is overtaken only as often as the retry budgets of the rows no younger than
 * it allow.
 */
module BoundedOvertaking {
  import opened OutboxTypes
  import opened LeaseProtocol
  import opened MapSums
  import opened Batches
  import SkipLocked
  import SkipOrder

  /** Budgets of the rows no younger than x, x itself included. */
  ghost function AheadBudgets(rows: map<Id, Row>, x: Id): map<Id, int>
    requires x in rows
  {
    map id | id in rows && rows[id].createdAt <= rows[x].createdAt :: Budget(rows[id])
  }

  ghost function OthersAhead(rows: map<Id, Row>, x: Id): map<Id, int>
    requires x in rows
  {
    AheadBudgets(rows, x) - {x}
  }

  /** B of the bound: what the rows no younger than x may still cost in publish attempts. */
  ghost function AheadTotal(rows: map<Id, Row>, x: Id): int
    requires x in rows
  {
    Total(AheadBudgets(rows, x))
  }

  /** An oldest batch but for rows that were passed over, and x is none of those. */
  ghost predicate Unpassed(rows: map<Id, Row>, at: Time, limit: nat, ids: seq<Id>, x: Id) {
    exists passed: set<Id> :: x !in passed && OldestBatch(rows - passed, at, limit, ids)
  }

  /** Whatever else is in flight in the database, a lease that does not pass over x commits such a batch. */
  lemma CommitUnpassed(c: Config, server: SkipLocked.Server, w: nat, x: Id)
    requires SkipLocked.ServerOk(c, server) && SkipLocked.Complete(c, server, w)
    requires x !in SkipOrder.PassedOver(server, w)
    ensures var t := server.txns[w];
            Unpassed(server.sys.rows, t.at, c.limit, PickIds(SkipLocked.PendingPicks(t)), x)
  {
    hide SkipLocked.ServerOk, OldestBatch;
    SkipOrder.CommitIsOldest(c, server, w);
  }

  /** No event is held on a lease that has run out at this time. */
  ghost predicate InForce(s: State, at: Time) {
    forall v: nat, i: nat | Holds(s, v, i) :: at <= s.workers[v].items[i].lockedUntil
  }

  /**
   * A step of a calm relay, seen by row x: fetches do not pass over x for other rows, marks are acknowledged, no lease
   * runs out while its event is held, nothing crashes, and only rows younger than x arrive.
   */
  ghost predicate Calm(c: Config, s: State, a: Action, x: Id, since: Time)
    requires x in s.rows && Enabled(c, s, a)
  {
    match a
    case Insert(_, _, createdAt, _) => s.rows[x].createdAt < createdAt
    case Fetch(_, at, picks) => since <= at && InForce(s, at) && Unpassed(s.rows, at, c.limit, PickIds(picks), x)
    case Check(w) => s.now < Current(s, w).lockedUntil
    case Mark(_, reply, _, _) => reply.Acked?
    case Crash(_) => false
    case _ => true
  }

  ghost predicate CalmRun(c: Config, s: State, acts: seq<Action>, x: Id, since: Time)
    decreases |acts|
  {
    acts == [] ||
    (&& x in s.rows && Enabled(c, s, acts[0]) && Calm(c, s, acts[0], x, since)
     && CalmRun(c, Apply(c, s, acts[0]), acts[1..], x, since))
  }

  function Fetches(acts: seq<Action>): nat {
    if acts == [] then 0 else (if acts[0].Fetch? then 1 else 0) + Fetches(acts[1..])
  }

  predicate Leases(a: Action, x: Id) {
    a.Fetch? && exists i | 0 <= i < |a.picks| :: a.picks[i].id == x
  }

  /** Some worker may still publish or mark the event. */
  ghost predicate IsHeld(s: State, id: Id) {
    exists w: nat, i: nat :: Holds(s, w, i) && s.workers[w].items[i].id == id
  }

  /** The rows ahead of x that are being worked on. */
  ghost function HeldAhead(s: State, x: Id): set<Id>
    requires x in s.rows
  {
    set id | id in OthersAhead(s.rows, x) && IsHeld(s, id)
  }

  /** x is due, and all that the workers hold are other rows, still leased to them. */
  ghost predicate Waits(c: Config, s: State, x: Id, since: Time) {
    && Safe(c, s) && x in s.rows && Eligible(s.rows[x], since)
    && forall w: nat, i: nat | Holds(s, w, i) ::
         UpToDate(s, s.workers[w].items[i]) && s.workers[w].items[i].id != x
  }

  /** Attempts the rows ahead of x can still take beyond those already begun. */
  ghost function Slack(s: State, x: Id): int
    requires x in s.rows
  {
    Total(OthersAhead(s.rows, x)) - |HeldAhead(s, x)|
  }

  lemma SlackNonNegative(c: Config, s: State, x: Id, since: Time)
    requires Waits(c, s, x, since)
    ensures 0 <= Slack(s, x)
  {
    hide SlotsUnique, SnapshotOrStale, WorkerOk, IssuedOk, Total;
    var m := OthersAhead(s.rows, x);
    forall id | id in m ensures 0 <= m[id] && (IsHeld(s, id) ==> 1 <= m[id]) {
      assert RowOk(c, s, id, s.rows[id]);
    }
    TotalAtLeast(m, HeldAhead(s, x));
  }

  // ---------------------------------------------------------------------------------------------------------
  // A batch that passes x
  // ---------------------------------------------------------------------------------------------------------

  /** Granting leaves the budgets and ages of all rows as they were. */
  lemma {:induction false} GrantAllAhead(c: Config, s: State, w: nat, at: Time, picks: seq<Pick>, x: Id)
    requires GrantableAll(c, s, w, at, picks) && x in s.rows
    ensures var s' := GrantAll(c, s, w, at, picks);
            x in s'.rows && AheadBudgets(s'.rows, x) == AheadBudgets(s.rows, x)
    decreases |picks|
  {
    if picks != [] {
      var s1 := Grant(c, s, w, at, picks[0]);
      assert AheadBudgets(s1.rows, x) == AheadBudgets(s.rows, x);
      GrantAllAhead(c, s1, w, at, picks[1..], x);
    }
  }

  /** x is due and is not taken, so the batch is a full one of rows ahead of it that nobody holds. */
  lemma FullBatchAhead(c: Config, s: State, a: Action, x: Id, since: Time)
    requires Waits(c, s, x, since) && a.Fetch? && Enabled(c, s, a) && Calm(c, s, a, x, since) && !Leases(a, x)
    ensures |a.picks| == c.limit && DistinctIds(PickIds(a.picks)) && x !in PickIds(a.picks)
    ensures forall id | id in PickIds(a.picks) :: id in OthersAhead(s.rows, x) && !IsHeld(s, id)
  {
    hide SlotsUnique, SnapshotOrStale, WorkerOk, IssuedOk;
    var ids := PickIds(a.picks);
    assert x !in ids;
    var passed :| x !in passed && OldestBatch(s.rows - passed, a.at, c.limit, ids);
    assert x in s.rows - passed && Eligible(s.rows[x], a.at);
    forall id | id in ids ensures id in OthersAhead(s.rows, x) && !IsHeld(s, id) {
      var i :| 0 <= i < |ids| && ids[i] == id;
      assert RowOk(c, s, id, s.rows[id]);
    }
  }

  /** What a lease leaves of the rows, and what it gives the worker. */
  lemma FetchEffect(c: Config, s: State, a: Action, x: Id)
    requires Safe(c, s) && a.Fetch? && Enabled(c, s, a) && x in s.rows && x !in PickIds(a.picks)
    ensures var s' := Apply(c, s, a);
            && Safe(c, s') && x in s'.rows && s'.rows[x] == s.rows[x]
            && AheadBudgets(s'.rows, x) == AheadBudgets(s.rows, x)
            && (forall id | id in s.rows && id !in PickIds(a.picks) :: id in s'.rows && s'.rows[id] == s.rows[id])
            && IsBusy(s', a.w) && s'.workers == s.workers[a.w := s'.workers[a.w]] && s'.workers[a.w].pos == 0
            && ItemIds(s'.workers[a.w].items) == PickIds(a.picks)
            && (forall i | 0 <= i < |s'.workers[a.w].items| :: UpToDate(s', s'.workers[a.w].items[i]))
  {
    hide Safe, AheadBudgets;
    var s0 := Opened(s, a.w, a.at);
    OpenedSafe(c, s, a.w, a.at);
    GrantAllSafe(c, s0, a.w, a.at, a.picks);
    GrantAllEffect(c, s0, a.w, a.at, a.picks);
    GrantAllAhead(c, s0, a.w, a.at, a.picks, x);
    forall id | id in s.rows && id !in PickIds(a.picks)
      ensures id in Apply(c, s, a).rows && Apply(c, s, a).rows[id] == s.rows[id]
    {
      GrantAllFrame(c, s0, a.w, a.at, a.picks, id);
    }
    GrantAllFrame(c, s0, a.w, a.at, a.picks, x);
  }

  /** Everybody holds what they held, and worker a.w the batch. */
  lemma FetchHeld(s: State, s': State, w: nat, ids: seq<Id>)
    requires w < |s.workers| && s.workers[w].Idle? && IsBusy(s', w) && s'.workers[w].pos == 0
    requires s'.workers == s.workers[w := s'.workers[w]] && ItemIds(s'.workers[w].items) == ids
    ensures forall v: nat, i: nat | Holds(s', v, i) && v != w :: Holds(s, v, i) && s'.workers[v] == s.workers[v]
    ensures forall i: nat | Holds(s', w, i) :: s'.workers[w].items[i].id == ids[i]
    ensures forall id :: IsHeld(s', id) <==> IsHeld(s, id) || id in ids
  {
    forall i: nat | Holds(s', w, i) ensures s'.workers[w].items[i].id == ids[i] {
      assert ItemIds(s'.workers[w].items)[i] == ids[i];
    }
    forall id ensures IsHeld(s', id) <==> IsHeld(s, id) || id in ids {
      if IsHeld(s, id) {
        var v: nat, i: nat :| Holds(s, v, i) && s.workers[v].items[i].id == id;
        assert Holds(s', v, i);
      }
      if id in ids {
        var i :| 0 <= i < |ids| && ids[i] == id;
        assert Holds(s', w, i);
      }
    }
  }

  lemma FetchAhead(c: Config, s: State, a: Action, x: Id, since: Time)
    requires Waits(c, s, x, since) && a.Fetch? && Enabled(c, s, a) && Calm(c, s, a, x, since) && !Leases(a, x)
    ensures var s' := Apply(c, s, a);
            && Waits(c, s', x, since)
            && Slack(s', x) == Slack(s, x) - c.limit
  {
    var s', ids := Apply(c, s, a), PickIds(a.picks);
    FullBatchAhead(c, s, a, x, since);
    FetchEffect(c, s, a, x);
    FetchHeld(s, s', a.w, ids);
    hide Safe, AheadBudgets, Total, Apply, Enabled, Calm, Leases;
    forall v: nat, i: nat | Holds(s', v, i)
      ensures UpToDate(s', s'.workers[v].items[i]) && s'.workers[v].items[i].id != x
    {
      if v != a.w {
        assert UpToDate(s, s.workers[v].items[i]);
        assert IsHeld(s, s.workers[v].items[i].id);
      }
    }
    assert HeldAhead(s', x) == HeldAhead(s, x) + IdSet(ids);
    assert HeldAhead(s, x) !! IdSet(ids);
    DistinctSize(ids);
  }

  // ---------------------------------------------------------------------------------------------------------
  // A mark pays with budget
  // ---------------------------------------------------------------------------------------------------------

  /** Marking a row that is still leased spends at least one of its attempts. */
  lemma MarkSpends(c: Config, s: State, a: Action, x: Id, since: Time)
    requires Waits(c, s, x, since) && a.Mark? && Enabled(c, s, a) && a.reply.Acked?
    ensures var s', item := Apply(c, s, a), Current(s, a.w);
            && item.id in s.rows && item.id in s'.rows && s'.rows == s.rows[item.id := s'.rows[item.id]]
            && s'.rows[item.id].createdAt == s.rows[item.id].createdAt
            && Budget(s'.rows[item.id]) < Budget(s.rows[item.id])
            && s'.workers == s.workers[a.w := s.workers[a.w].(pos := s.workers[a.w].pos + 1, phase := Ready,
                                                              since := s.now, count := s.workers[a.w].count + 1)]
  {
    hide SlotsUnique, SnapshotOrStale, IssuedOk, WorkerOk;
    var item := Current(s, a.w);
    assert Holds(s, a.w, s.workers[a.w].pos);
    assert UpToDate(s, item);
    assert RowOk(c, s, item.id, s.rows[item.id]);
  }

  /** Nobody else holds the marked row. */
  lemma MarkHeld(c: Config, s: State, a: Action, s': State)
    requires a.Mark? && SlotsUnique(s) && AtItem(s, a.w)
    requires forall w: nat, i: nat | Holds(s, w, i) :: UpToDate(s, s.workers[w].items[i])
    requires IsBusy(s', a.w) && s'.workers == s.workers[a.w := s'.workers[a.w]]
    requires s'.workers[a.w].items == s.workers[a.w].items && s'.workers[a.w].pos == s.workers[a.w].pos + 1
    ensures forall v: nat, i: nat | Holds(s', v, i) ::
              && Holds(s, v, i) && s'.workers[v].items == s.workers[v].items
              && s.workers[v].items[i].id != Current(s, a.w).id
    ensures forall id :: IsHeld(s', id) <==> IsHeld(s, id) && id != Current(s, a.w).id
  {
    var item := Current(s, a.w);
    var pos := s.workers[a.w].pos;
    assert Holds(s, a.w, pos) && IsSlot(s, a.w, pos);
    forall v: nat, i: nat | Holds(s', v, i)
      ensures Holds(s, v, i) && s'.workers[v].items == s.workers[v].items && s.workers[v].items[i].id != item.id
    {
      assert Holds(s, v, i) && IsSlot(s, v, i);
      assert UpToDate(s, s.workers[v].items[i]) && UpToDate(s, item);
    }
    forall id | IsHeld(s, id) && id != item.id ensures IsHeld(s', id) {
      var v: nat, i: nat :| Holds(s, v, i) && s.workers[v].items[i].id == id;
      assert Holds(s', v, i);
    }
  }

  /** The budget the mark spends is worth at least as much as the hold it ends. */
  lemma MarkSlack(s: State, s': State, x: Id, id: Id)
    requires x in s.rows && id in s.rows && id != x && id in s'.rows && s'.rows == s.rows[id := s'.rows[id]]
    requires s'.rows[id].createdAt == s.rows[id].createdAt && Budget(s'.rows[id]) < Budget(s.rows[id])
    requires forall k :: IsHeld(s', k) <==> IsHeld(s, k) && k != id
    ensures Slack(s', x) <= Slack(s, x)
  {
    hide Budget, IsHeld, Total;
    var m, m' := OthersAhead(s.rows, x), OthersAhead(s'.rows, x);
    if id in m {
      assert m' == m[id := Budget(s'.rows[id])];
      TotalUpdate(m, id, Budget(s'.rows[id]));
      assert HeldAhead(s, x) <= HeldAhead(s', x) + {id};
      UnionSize(HeldAhead(s, x), HeldAhead(s', x), id);
    } else {
      assert m' == m;
      assert HeldAhead(s', x) == HeldAhead(s, x);
    }
  }

  lemma UnionSize(a: set<Id>, b: set<Id>, id: Id)
    requires a <= b + {id}
    ensures |a| <= |b| + 1
  {
    if a != b + {id} {
      SubsetSize(a, b + {id});
    }
  }

  lemma MarkAhead(c: Config, s: State, a: Action, x: Id, since: Time)
    requires Waits(c, s, x, since) && a.Mark? && Enabled(c, s, a) && Calm(c, s, a, x, since)
    ensures var s' := Apply(c, s, a);
            && Waits(c, s', x, since)
            && Slack(s', x) <= Slack(s, x)
  {
    var s' := Apply(c, s, a);
    StepSafe(c, s, a);
    MarkSpends(c, s, a, x, since);
    hide RowOk, WorkerOk, SnapshotOrStale, IssuedOk, Apply, Slack, Budget;
    MarkHeld(c, s, a, s');
    assert Holds(s, a.w, s.workers[a.w].pos);
    MarkSlack(s, s', x, Current(s, a.w).id);
    forall v: nat, i: nat | Holds(s', v, i)
      ensures UpToDate(s', s'.workers[v].items[i]) && s'.workers[v].items[i].id != x
    {
      assert UpToDate(s, s.workers[v].items[i]);
    }
  }

  // ---------------------------------------------------------------------------------------------------------
  // All other steps
  // ---------------------------------------------------------------------------------------------------------

  /** The workers hold what they held. */
  ghost predicate SameHeld(s: State, s': State) {
    && (forall v: nat, i: nat :: Holds(s', v, i) <==> Holds(s, v, i))
    && (forall v: nat, i: nat | Holds(s, v, i) :: s'.workers[v].items[i] == s.workers[v].items[i])
  }

  lemma SameHeldAhead(s: State, s': State, x: Id)
    requires x in s.rows && x in s'.rows && OthersAhead(s'.rows, x) == OthersAhead(s.rows, x) && SameHeld(s, s')
    ensures Slack(s', x) == Slack(s, x)
  {
    hide OthersAhead;
    forall id ensures IsHeld(s', id) <==> IsHeld(s, id) {
      if IsHeld(s, id) {
        var v: nat, i: nat :| Holds(s, v, i) && s.workers[v].items[i].id == id;
        assert Holds(s', v, i);
      }
    }
    assert HeldAhead(s', x) == HeldAhead(s, x);
  }

  /** A younger row, a passing moment, or a worker's own step between marks. */
  lemma OtherStep(c: Config, s: State, a: Action, x: Id, since: Time)
    requires x in s.rows && !a.Fetch? && !a.Mark? && Enabled(c, s, a) && Calm(c, s, a, x, since)
    ensures var s' := Apply(c, s, a);
            && SameHeld(s, s')
            && (forall id | id in s.rows :: id in s'.rows && s'.rows[id] == s.rows[id])
            && OthersAhead(s'.rows, x) == OthersAhead(s.rows, x)
  {
    hide Budget, Eligible, GrantAll, GrantableAll, ApplyMark;
    if !a.Insert? {
      assert Apply(c, s, a).rows == s.rows;
    }
  }

  /** They change nothing ahead of x. */
  lemma OtherAhead(c: Config, s: State, a: Action, x: Id, since: Time)
    requires Waits(c, s, x, since) && !a.Fetch? && !a.Mark? && Enabled(c, s, a) && Calm(c, s, a, x, since)
    ensures var s' := Apply(c, s, a);
            && Waits(c, s', x, since)
            && Slack(s', x) == Slack(s, x)
  {
    var s' := Apply(c, s, a);
    StepSafe(c, s, a);
    OtherStep(c, s, a, x, since);
    hide Safe, Slack, Apply, Enabled, Calm, OthersAhead;
    SameHeldAhead(s, s', x);
  }

  lemma StepAhead(c: Config, s: State, a: Action, x: Id, since: Time)
    requires Waits(c, s, x, since) && Enabled(c, s, a) && Calm(c, s, a, x, since) && !Leases(a, x)
    ensures var s' := Apply(c, s, a);
            && Waits(c, s', x, since)
            && Slack(s', x) <= Slack(s, x) - if a.Fetch? then c.limit else 0
  {
    hide Slack, Calm;
    if a.Fetch? {
      FetchAhead(c, s, a, x, since);
    } else if a.Mark? {
      MarkAhead(c, s, a, x, since);
    } else {
      OtherAhead(c, s, a, x, since);
    }
  }

  // ---------------------------------------------------------------------------------------------------------
  // The bound
  // ---------------------------------------------------------------------------------------------------------

  lemma {:induction false} SlackPays(c: Config, s: State, acts: seq<Action>, x: Id, since: Time)
    requires Waits(c, s, x, since) && CalmRun(c, s, acts, x, since)
    requires forall i | 0 <= i < |acts| :: !Leases(acts[i], x)
    ensures Fetches(acts) * c.limit <= Slack(s, x)
    decreases |acts|
  {
    hide Slack, Calm;
    if acts == [] {
      SlackNonNegative(c, s, x, since);
    } else {
      var a, rest := acts[0], acts[1..];
      StepAhead(c, s, a, x, since);
      SlackPays(c, Apply(c, s, a), rest, x, since);
      OneMore(Fetches(rest), c.limit);
    }
  }

  lemma OneMore(f: nat, k: nat)
    ensures (1 + f) * k == k + f * k
  {
  }

  /** x is due since that time, and no worker holds x or an event whose lease has run out. */
  ghost predicate Due(c: Config, s: State, x: Id, since: Time) {
    && Safe(c, s) && x in s.rows && Eligible(s.rows[x], since)
    && InForce(s, s.now) && !IsHeld(s, x)
  }

  lemma DueWaits(c: Config, s: State, x: Id, since: Time)
    requires Due(c, s, x, since)
    ensures Waits(c, s, x, since)
  {
    assert SnapshotOrStale(s);
  }

  /** Without x being leased, at most (B - 1) / limit batches go by, whatever workers take them. */
  lemma OvertakenAtMost(c: Config, s: State, acts: seq<Action>, x: Id, since: Time)
    requires Due(c, s, x, since)
    requires CalmRun(c, s, acts, x, since)
    requires forall i | 0 <= i < |acts| :: !Leases(acts[i], x)
    ensures Fetches(acts) * c.limit <= AheadTotal(s.rows, x) - 1
  {
    DueWaits(c, s, x, since);
    SlackPays(c, s, acts, x, since);
    assert RowOk(c, s, x, s.rows[x]);
    TotalWithout(AheadBudgets(s.rows, x), x);
  }

  /** So within floor(B / limit) + 1 batches x is leased, whatever the publishes of the rows ahead of it come to. */
  lemma LeasedWithinBudget(c: Config, s: State, acts: seq<Action>, x: Id, since: Time)
    requires 1 <= c.limit
    requires Due(c, s, x, since)
    requires CalmRun(c, s, acts, x, since)
    requires AheadTotal(s.rows, x) / c.limit + 1 <= Fetches(acts)
    ensures exists i | 0 <= i < |acts| :: Leases(acts[i], x)
  {
    hide CalmRun, Total, Safe, InForce, IsHeld;
    if forall i | 0 <= i < |acts| :: !Leases(acts[i], x) {
      OvertakenAtMost(c, s, acts, x, since);
      Quota(AheadTotal(s.rows, x), c.limit, Fetches(acts));
    }
  }

  lemma Quota(b: int, k: nat, f: nat)
    requires 1 <= k && b / k + 1 <= f
    ensures b < f * k
  {
    assert b < (b / k + 1) * k;
  }
}
