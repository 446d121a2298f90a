/** What the invariants of the leasing protocol mean, stated over every run. */
module LeaseSafety {
  import opened Options
  import opened OutboxTypes
  import opened LeaseProtocol
  import opened Ledger
  import opened MapSums
  import opened Batches

  // ---------------------------------------------------------------------------------------------------------
  // One live holder, stale holders fenced out
  // ---------------------------------------------------------------------------------------------------------

  /** In every reachable state at most one worker holds an event on a lease that has not run out. */
  lemma OneLiveHolder(c: Config, start: Time, n: nat, acts: seq<Action>, w1: nat, i1: nat, w2: nat, i2: nat)
    requires ValidRun(c, Init(start, n), acts)
    requires var s := Exec(c, Init(start, n), acts);
             && Holds(s, w1, i1) && Holds(s, w2, i2)
             && s.workers[w1].items[i1].id == s.workers[w2].items[i2].id
             && s.now <= s.workers[w1].items[i1].lockedUntil
             && s.now <= s.workers[w2].items[i2].lockedUntil
    ensures w1 == w2 && i1 == i2
  {
    InitSafe(c, start, n);
    RunSafe(c, Init(start, n), acts);
    LiveHoldersAgree(c, Exec(c, Init(start, n), acts), w1, i1, w2, i2);
  }

  /** An event a worker still holds is as its row is, or the lease it was fetched on has run out. */
  lemma HeldItemCurrentOrExpired(c: Config, start: Time, n: nat, acts: seq<Action>, w: nat, i: nat)
    requires ValidRun(c, Init(start, n), acts) && Holds(Exec(c, Init(start, n), acts), w, i)
    ensures var s := Exec(c, Init(start, n), acts);
            var item := s.workers[w].items[i];
            item.id in s.rows && (UpToDate(s, item) || item.lockedUntil < s.now)
  {
    InitSafe(c, start, n);
    RunSafe(c, Init(start, n), acts);
    var s := Exec(c, Init(start, n), acts);
    assert WorkerOk(c, s, s.workers[w]) && ItemOk(c, s, s.workers[w], s.workers[w].items[i]);
  }

  lemma LiveHoldersAgree(c: Config, s: State, w1: nat, i1: nat, w2: nat, i2: nat)
    requires Safe(c, s) && Holds(s, w1, i1) && Holds(s, w2, i2)
    requires s.workers[w1].items[i1].id == s.workers[w2].items[i2].id
    requires s.now <= s.workers[w1].items[i1].lockedUntil && s.now <= s.workers[w2].items[i2].lockedUntil
    ensures w1 == w2 && i1 == i2
  {
    assert UpToDate(s, s.workers[w1].items[i1]) && UpToDate(s, s.workers[w2].items[i2]);
    assert IsSlot(s, w1, i1) && IsSlot(s, w2, i2);
  }

  /** While another worker holds a live lease on the event, a mark from an old holder changes no row and no count. */
  lemma StaleMarkFenced(c: Config, s: State, a: Action, v: nat, j: nat)
    requires Safe(c, s) && a.Mark? && Enabled(c, s, a)
    requires Holds(s, v, j) && v != a.w
    requires s.workers[v].items[j].id == Current(s, a.w).id && s.now <= s.workers[v].items[j].lockedUntil
    ensures var s' := Apply(c, s, a);
            && s'.rows == s.rows && s'.log == s.log
            && (s'.workers[a.w].Busy? ==> s'.workers[a.w].count == s.workers[a.w].count)
  {
    assert UpToDate(s, s.workers[v].items[j]);
    assert IsSlot(s, v, j) && IsSlot(s, a.w, s.workers[a.w].pos);
  }

  // ---------------------------------------------------------------------------------------------------------
  // How one row may change
  // ---------------------------------------------------------------------------------------------------------

  /** A terminal row never changes; the others only spend budget. */
  ghost predicate Evolves(r: Row, r': Row) {
    && (r.status.IsTerminal() ==> r' == r)
    && r'.maxRetries == r.maxRetries && r'.createdAt == r.createdAt
    && r.retryCount <= r'.retryCount
    && Budget(r') <= Budget(r)
  }

  lemma {:induction false} GrantAllEvolves(c: Config, s: State, w: nat, at: Time, picks: seq<Pick>, id: Id)
    requires GrantableAll(c, s, w, at, picks) && id in s.rows
    ensures var s' := GrantAll(c, s, w, at, picks); id in s'.rows && Evolves(s.rows[id], s'.rows[id])
    decreases |picks|
  {
    if picks != [] {
      GrantAllEvolves(c, Grant(c, s, w, at, picks[0]), w, at, picks[1..], id);
    }
  }

  lemma StepEvolves(c: Config, s: State, a: Action, id: Id)
    requires Safe(c, s) && Enabled(c, s, a) && id in s.rows
    ensures var s' := Apply(c, s, a); id in s'.rows && Evolves(s.rows[id], s'.rows[id])
  {
    assert RowOk(c, s, id, s.rows[id]);
    if a.Fetch? {
      GrantAllEvolves(c, Opened(s, a.w, a.at), a.w, a.at, a.picks, id);
    } else if a.Mark? {
      var item := Current(s, a.w);
      if item.id == id && Matches(s.rows, id, item.token) {
        assert RowOk(c, s, id, s.rows[id]);
        assert WorkerOk(c, s, s.workers[a.w]) && ItemOk(c, s, s.workers[a.w], item);
      }
    }
  }

  /** No id is ever lost, PUBLISHED and DEAD_LETTER are absorbing, and the remaining budget never grows. */
  lemma {:induction false} RunEvolves(c: Config, s: State, acts: seq<Action>, id: Id)
    requires Safe(c, s) && ValidRun(c, s, acts) && id in s.rows
    ensures var s' := Exec(c, s, acts); id in s'.rows && Evolves(s.rows[id], s'.rows[id])
    decreases |acts|
  {
    if acts != [] {
      StepEvolves(c, s, acts[0], id);
      StepSafe(c, s, acts[0]);
      RunEvolves(c, Apply(c, s, acts[0]), acts[1..], id);
    }
  }

  predicate IsTerminalIn(s: State, id: Id) {
    id in s.rows && s.rows[id].status.IsTerminal()
  }

  /** How many steps of a run take the row from a live state into a terminal one. */
  function TerminalSteps(c: Config, s: State, acts: seq<Action>, id: Id): nat
    requires ValidRun(c, s, acts)
    decreases |acts|
  {
    if acts == [] then 0
    else
      var s' := Apply(c, s, acts[0]);
      (if !IsTerminalIn(s, id) && IsTerminalIn(s', id) then 1 else 0) + TerminalSteps(c, s', acts[1..], id)
  }

  /** Each row makes at most one terminal transition per run, and none once it is terminal. */
  lemma {:induction false} AtMostOneTerminalStep(c: Config, s: State, acts: seq<Action>, id: Id)
    requires Safe(c, s) && ValidRun(c, s, acts)
    ensures TerminalSteps(c, s, acts, id) ==
            if !IsTerminalIn(s, id) && IsTerminalIn(Exec(c, s, acts), id) then 1 else 0
    ensures IsTerminalIn(s, id) ==> IsTerminalIn(Exec(c, s, acts), id)
    decreases |acts|
  {
    if acts != [] {
      if id in s.rows {
        StepEvolves(c, s, acts[0], id);
      }
      StepSafe(c, s, acts[0]);
      AtMostOneTerminalStep(c, Apply(c, s, acts[0]), acts[1..], id);
    }
  }

  // ---------------------------------------------------------------------------------------------------------
  // Retry budget, provenance and retry times over whole runs
  // ---------------------------------------------------------------------------------------------------------

  /**
   * In every reachable state the columns agree with the history: retry_count counts the recorded failures and never
   * overruns max(1, max_retries), token and expiry are set exactly in PROCESSING, a PUBLISHED row was leased,
   * published without error and marked under one token, and a DEAD_LETTER row was leased and failed for good.
   * The retry time is the inserted one, or comes from the last recorded failure and a bounded backoff.
   */
  lemma RowHistory(c: Config, start: Time, n: nat, acts: seq<Action>, id: Id)
    requires ValidRun(c, Init(start, n), acts)
    requires id in Exec(c, Init(start, n), acts).rows
    ensures var s := Exec(c, Init(start, n), acts);
            var r := s.rows[id];
            && (r.status.Pending? || r.status.Processing? ==> r.retryCount < Cap(r.maxRetries))
            && (r.status.DeadLetter? ==> r.retryCount <= Cap(r.maxRetries) && DeadProof(s.log, id, r))
            && (r.status.Published? ==> PublishedProof(s.log, id))
            && (r.leaseToken.Some? <==> r.status.Processing?)
            && (r.lockedUntil.Some? <==> r.status.Processing?)
            && Fails(s.log, id) == r.retryCount
            && Terminals(s.log, id) == (if r.status.IsTerminal() then 1 else 0)
            && RetryJustified(c, s.log, id, r.nextRetryAt)
            && (forall k | 0 <= k < |s.log| && s.log[k].MarkedFailed? :: s.log[k].failedAt <= s.now)
  {
    ReachableBooked(c, start, n, acts);
    var s := Exec(c, Init(start, n), acts);
    assert RowOk(c, s, id, s.rows[id]) && RowLedger(c, s, id);
    assert forall k | 0 <= k < |s.log| :: EntryOk(s, s.log[k]);
  }

  lemma ReachableBooked(c: Config, start: Time, n: nat, acts: seq<Action>)
    requires ValidRun(c, Init(start, n), acts)
    ensures var s := Exec(c, Init(start, n), acts); Safe(c, s) && Booked(c, s)
  {
    InitSafe(c, start, n);
    InitBooked(c, start, n);
    RunBooked(c, Init(start, n), acts);
  }

  /** Two leases of one event never overlap unless a recorded failure gave the first one back in between. */
  lemma LeasesNeverOverlap(c: Config, start: Time, n: nat, acts: seq<Action>, i: nat, j: nat)
    requires ValidRun(c, Init(start, n), acts)
    requires var log := Exec(c, Init(start, n), acts).log;
             i < j < |log| && log[i].LeaseGranted? && log[j].LeaseGranted? && log[i].id == log[j].id
    ensures var s := Exec(c, Init(start, n), acts);
            && (FailedAfter(s.log[..j], s.log[i].id, i) || s.log[i].at + c.lease < s.log[j].at)
            && s.log[i].token in s.issued && s.issued[s.log[i].token].lockedUntil == s.log[i].at + c.lease
  {
    ReachableBooked(c, start, n, acts);
    var s := Exec(c, Init(start, n), acts);
    assert EntryOk(s, s.log[i]) && LeaseDated(c, s, s.log[i]);
  }

  /** A call of ProcessBatch counts the rows it moved out of PROCESSING, less the acknowledgements it lost. */
  lemma BatchCount(c: Config, start: Time, n: nat, acts: seq<Action>, w: nat)
    requires ValidRun(c, Init(start, n), acts)
    requires IsBusy(Exec(c, Init(start, n), acts), w)
    ensures var s := Exec(c, Init(start, n), acts);
            var wk := s.workers[w];
            && wk.count + wk.lost == Marks(s.log, TokensOf(wk.items))
            && (forall i | 0 <= i < |wk.items| :: Marks(s.log, {wk.items[i].token}) <= 1)
  {
    ReachableBooked(c, start, n, acts);
    var s := Exec(c, Init(start, n), acts);
    assert WorkerLedger(s, s.workers[w]);
  }

  // ---------------------------------------------------------------------------------------------------------
  // No stranded row
  // ---------------------------------------------------------------------------------------------------------

  function Later(a: Time, b: Time): Time {
    if a < b then b else a
  }

  /** When a row is next open to the lease query if nobody touches it. */
  function WakeTime(r: Row): Time {
    if r.status.Processing? && r.lockedUntil.Some? then Later(r.lockedUntil.value + 1, r.nextRetryAt) else r.nextRetryAt
  }

  /** Whatever happened before, a row that is not terminal is eligible exactly from its wake time on. */
  lemma NeverStranded(c: Config, start: Time, n: nat, acts: seq<Action>, id: Id, t: Time)
    requires ValidRun(c, Init(start, n), acts)
    requires id in Exec(c, Init(start, n), acts).rows
    ensures var r := Exec(c, Init(start, n), acts).rows[id];
            Eligible(r, t) <==> !r.status.IsTerminal() && WakeTime(r) <= t
  {
    InitSafe(c, start, n);
    RunSafe(c, Init(start, n), acts);
    var s := Exec(c, Init(start, n), acts);
    assert RowOk(c, s, id, s.rows[id]);
  }

  lemma {:induction false} GrantAllSkips(c: Config, s: State, w: nat, at: Time, picks: seq<Pick>, id: Id)
    requires GrantableAll(c, s, w, at, picks) && id in s.rows && !Eligible(s.rows[id], at)
    ensures var s' := GrantAll(c, s, w, at, picks); id in s'.rows && s'.rows[id] == s.rows[id]
    decreases |picks|
  {
    if picks != [] {
      GrantAllSkips(c, Grant(c, s, w, at, picks[0]), w, at, picks[1..], id);
    }
  }

  /**
   * No run changes a row without a lease that is not PENDING: the query does not let it through and no mark matches it.
   */
  lemma {:induction false} StrayRowStays(c: Config, s: State, acts: seq<Action>, id: Id)
    requires ValidRun(c, s, acts) && id in s.rows
    requires s.rows[id].status != Pending && s.rows[id].lockedUntil == None && s.rows[id].leaseToken == None
    ensures var s' := Exec(c, s, acts); id in s'.rows && s'.rows[id] == s.rows[id]
    decreases |acts|
  {
    if acts != [] {
      var a := acts[0];
      if a.Fetch? {
        GrantAllSkips(c, Opened(s, a.w, a.at), a.w, a.at, a.picks, id);
      }
      StrayRowStays(c, Apply(c, s, a), acts[1..], id);
    }
  }

  /** The run changes the row. */
  ghost predicate Moves(c: Config, s: State, acts: seq<Action>, id: Id)
    requires id in s.rows
  {
    ValidRun(c, s, acts) && !(id in Exec(c, s, acts).rows && Exec(c, s, acts).rows[id] == s.rows[id])
  }

  function Stored(s: State, id: Id, r: Row): (s': State)
    ensures id in s'.rows && s'.rows[id] == r
  {
    s.(rows := s.rows[id := r])
  }

  /**
   * A row stored with any status, as Insert does, is ever touched by the relays in some run exactly when it is PENDING.
   */
  lemma InsertedRowFetchedIff(c: Config, s: State, w: nat, id: Id, status: Status, retryCount: int, maxRetries: int,
                              createdAt: Time, nextRetryAt: Time)
    requires w < |s.workers| && s.workers[w].Idle? && 1 <= c.limit
    ensures var r := Row(status, retryCount, maxRetries, createdAt, nextRetryAt, None, None, None);
            (exists acts :: Moves(c, Stored(s, id, r), acts, id)) <==> status == Pending
  {
    var r := Row(status, retryCount, maxRetries, createdAt, nextRetryAt, None, None, None);
    var s1 := Stored(s, id, r);
    if status == Pending {
      PendingMoves(c, s1, w, id);
    } else {
      forall acts ensures !Moves(c, s1, acts, id) {
        if ValidRun(c, s1, acts) {
          StrayRowStays(c, s1, acts, id);
        }
      }
    }
  }

  /** Wait until the row is due and fetch it. */
  lemma PendingMoves(c: Config, s: State, w: nat, id: Id)
    requires id in s.rows && s.rows[id].status == Pending
    requires w < |s.workers| && s.workers[w].Idle? && 1 <= c.limit
    ensures exists acts :: Moves(c, s, acts, id)
  {
    var d: nat := if s.rows[id].nextRetryAt <= s.now then 0 else s.rows[id].nextRetryAt - s.now;
    var bound := AboveAll(s.issued.Keys);
    var wait, p := Tick(d), Pick(id, bound + 1);
    var s1 := Apply(c, s, wait);
    var fetch := Fetch(w, s1.now, [p]);
    assert p.token !in s1.issued;
    OneGrant(c, Opened(s1, w, s1.now), w, s1.now, p);
    var s2 := Apply(c, s1, fetch);
    assert s2.rows[id].status == Processing;
    var none: seq<Action> := [];
    assert [wait, fetch][1..] == [fetch] && [fetch][1..] == none;
    assert ValidRun(c, s2, none) && Exec(c, s2, none) == s2;
    assert ValidRun(c, s1, [fetch]) && Exec(c, s1, [fetch]) == s2;
    assert Moves(c, s, [wait, fetch], id);
  }

  // ---------------------------------------------------------------------------------------------------------
  // The remaining budget pays for every mark
  // ---------------------------------------------------------------------------------------------------------

  ghost function Budgets(rows: map<Id, Row>): map<Id, int> {
    map id | id in rows :: Budget(rows[id])
  }

  ghost function TotalBudget(rows: map<Id, Row>): int {
    Total(Budgets(rows))
  }

  function MarkTotal(log: seq<Entry>): nat {
    if log == [] then 0 else MarkTotal(log[..|log| - 1]) + if IsMark(log[|log| - 1]) then 1 else 0
  }

  lemma MarkTotalAppend(log: seq<Entry>, e: Entry)
    ensures MarkTotal(log + [e]) == MarkTotal(log) + if IsMark(e) then 1 else 0
  {
    assert (log + [e])[..|log|] == log;
  }

  lemma RowBudget(rows: map<Id, Row>, id: Id, r: Row)
    ensures TotalBudget(rows[id := r]) == TotalBudget(rows) + Budget(r) - if id in rows then Budget(rows[id]) else 0
  {
    TotalUpdate(Budgets(rows), id, Budget(r));
    assert Budgets(rows[id := r]) == Budgets(rows)[id := Budget(r)];
  }

  lemma {:induction false} GrantAllBudget(c: Config, s: State, w: nat, at: Time, picks: seq<Pick>)
    requires GrantableAll(c, s, w, at, picks)
    ensures var s' := GrantAll(c, s, w, at, picks);
            && s'.rows.Keys == s.rows.Keys
            && TotalBudget(s'.rows) == TotalBudget(s.rows) && MarkTotal(s'.log) == MarkTotal(s.log)
    decreases |picks|
  {
    if picks != [] {
      var s1, p := Grant(c, s, w, at, picks[0]), picks[0];
      RowBudget(s.rows, p.id, s1.rows[p.id]);
      MarkTotalAppend(s.log, LeaseGranted(p.id, p.token, at));
      GrantAllBudget(c, s1, w, at, picks[1..]);
    }
  }

  lemma MarkBudget(c: Config, s: State, a: Action)
    requires Safe(c, s) && a.Mark? && Enabled(c, s, a)
    ensures var s' := Apply(c, s, a);
            TotalBudget(s'.rows) + MarkTotal(s'.log) <= TotalBudget(s.rows) + MarkTotal(s.log)
  {
    var s' := Apply(c, s, a);
    var item, outcome := Current(s, a.w), s.workers[a.w].phase.outcome;
    if Matches(s.rows, item.id, item.token) && !a.reply.Refused? {
      assert RowOk(c, s, item.id, s.rows[item.id]);
      assert WorkerOk(c, s, s.workers[a.w]) && ItemOk(c, s, s.workers[a.w], item);
      RowBudget(s.rows, item.id, s'.rows[item.id]);
      MarkTotalAppend(s.log, MarkEntry(item, outcome, a.failedAt, a.failedAt + a.backoff));
    }
  }

  lemma StepBudget(c: Config, s: State, a: Action)
    requires Safe(c, s) && Enabled(c, s, a) && !a.Insert?
    ensures var s' := Apply(c, s, a);
            TotalBudget(s'.rows) + MarkTotal(s'.log) <= TotalBudget(s.rows) + MarkTotal(s.log)
  {
    if a.Fetch? {
      GrantAllBudget(c, Opened(s, a.w, a.at), a.w, a.at, a.picks);
    } else if a.Mark? {
      MarkBudget(c, s, a);
    } else if a.End? {
      MarkTotalAppend(s.log, PublishEnded(Current(s, a.w).id, Current(s, a.w).token, a.outcome, s.now));
    }
  }

  /** With a fixed table, all workers together mark at most as often as the table had budget. */
  lemma {:induction false} MarksWithinBudget(c: Config, s: State, acts: seq<Action>)
    requires Safe(c, s) && ValidRun(c, s, acts)
    requires forall i | 0 <= i < |acts| :: !acts[i].Insert?
    ensures var s' := Exec(c, s, acts);
            && 0 <= TotalBudget(s'.rows)
            && MarkTotal(s'.log) - MarkTotal(s.log) <= TotalBudget(s.rows) - TotalBudget(s'.rows)
    decreases |acts|
  {
    if acts == [] {
      forall id | id in Budgets(s.rows) ensures 0 <= Budgets(s.rows)[id] {
        assert RowOk(c, s, id, s.rows[id]);
      }
      TotalNonNegative(Budgets(s.rows));
    } else {
      StepSafe(c, s, acts[0]);
      StepBudget(c, s, acts[0]);
      MarksWithinBudget(c, Apply(c, s, acts[0]), acts[1..]);
    }
  }
}
