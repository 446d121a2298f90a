/**
 * The leasing protocol as a state machine: one table, one clock and any number of relay workers, each running
 * ProcessBatch in small steps, with an environment that inserts rows, advances the clock, crashes workers and
 * loses acknowledgements.
 */
module LeaseProtocol {
  import opened Options
  import opened OutboxTypes

  /** What a publish attempt came to. A panicking publisher is recovered into Failure(false). */
  datatype Outcome = Success | Failure(nonRetryable: bool)

  /** What happened to a mark statement: run and answered, run but answered with an error, or not run. */
  datatype Reply = Acked | Lost | Refused

  datatype Phase = Ready | Checked | Publishing | Returned(outcome: Outcome)

  /** A worker between batches, or inside ProcessBatch at events[pos]. `since` is when its phase began. */
  datatype Worker =
    | Idle
    | Busy(fetchedAt: Time, items: seq<Item>, pos: nat, phase: Phase, since: Time, count: nat, lost: nat)

  /** What has happened so far, oldest first. */
  datatype Entry =
    | Inserted(id: Id, nextRetryAt: Time)
    | LeaseGranted(id: Id, token: Token, at: Time)
    | PublishEnded(id: Id, token: Token, outcome: Outcome, at: Time)
    | MarkedPublished(id: Id, token: Token)
    | MarkedFailed(id: Id, token: Token, finalFail: bool, failedAt: Time, nextRetryAt: Time)

  /** lease: the store's lease; limit: the batch size; maxBackoff: the largest delay the backoff can return. */
  datatype Config = Config(lease: nat, limit: nat, maxBackoff: nat)

  /** `issued` records every lease ever granted, by token. */
  datatype State = State(
    now: Time,
    rows: map<Id, Row>,
    workers: seq<Worker>,
    issued: map<Token, Item>,
    log: seq<Entry>
  )

  /** One row the lease query takes, with the token generated for it. */
  datatype Pick = Pick(id: Id, token: Token)

  datatype Action =
    | Insert(id: Id, maxRetries: int, createdAt: Time, nextRetryAt: Time)
    | Tick(d: nat)
    | Fetch(w: nat, at: Time, picks: seq<Pick>)
    | Check(w: nat)
    | Start(w: nat)
    | End(w: nat, outcome: Outcome)
    | Mark(w: nat, reply: Reply, failedAt: Time, backoff: nat)
    | Finish(w: nat)
    | Crash(w: nat)

  function Init(start: Time, n: nat): State {
    State(start, map[], seq(n, i => Idle), map[], [])
  }

  predicate IsBusy(s: State, w: nat) {
    w < |s.workers| && s.workers[w].Busy?
  }

  predicate AtItem(s: State, w: nat) {
    IsBusy(s, w) && s.workers[w].pos < |s.workers[w].items|
  }

  function Current(s: State, w: nat): Item
    requires AtItem(s, w)
  {
    s.workers[w].items[s.workers[w].pos]
  }

  /** The lease query with transaction time `at` may give this row, under a token never used before, to worker w. */
  predicate Grantable(c: Config, s: State, w: nat, at: Time, p: Pick) {
    && IsBusy(s, w) && |s.workers[w].items| < c.limit
    && p.id in s.rows && Eligible(s.rows[p.id], at)
    && p.token != NIL_TOKEN && p.token !in s.issued
  }

  function LeaseItem(r: Row, p: Pick, until: Time): Item {
    Item(p.id, p.token, until, r.retryCount, r.maxRetries)
  }

  /** One row of UPDATE ... RETURNING: the row is leased and its item joins the worker's batch. */
  function Grant(c: Config, s: State, w: nat, at: Time, p: Pick): State
    requires Grantable(c, s, w, at, p)
  {
    var until := at + c.lease;
    var item := LeaseItem(s.rows[p.id], p, until);
    var wk := s.workers[w];
    s.(rows := s.rows[p.id := LeasedRow(s.rows[p.id], p.token, until)],
       workers := s.workers[w := wk.(items := wk.items + [item])],
       issued := s.issued[p.token := item],
       log := s.log + [LeaseGranted(p.id, p.token, at)])
  }

  /** A row already taken by this statement is no longer eligible, so the picked rows are distinct. */
  predicate GrantableAll(c: Config, s: State, w: nat, at: Time, picks: seq<Pick>)
    decreases |picks|
  {
    picks == [] ||
    (Grantable(c, s, w, at, picks[0]) && GrantableAll(c, Grant(c, s, w, at, picks[0]), w, at, picks[1..]))
  }

  function GrantAll(c: Config, s: State, w: nat, at: Time, picks: seq<Pick>): State
    requires GrantableAll(c, s, w, at, picks)
    decreases |picks|
  {
    if picks == [] then s else GrantAll(c, Grant(c, s, w, at, picks[0]), w, at, picks[1..])
  }

  /** ProcessBatch has begun and has received no event yet. */
  function Opened(s: State, w: nat, at: Time): State
    requires w < |s.workers|
  {
    s.(workers := s.workers[w := Busy(at, [], 0, Ready, s.now, 0, 0)])
  }

  predicate Enabled(c: Config, s: State, a: Action) {
    match a
    case Insert(id, maxRetries, _, _) => id !in s.rows && IsInt4(maxRetries)
    case Tick(_) => true
    case Fetch(w, at, picks) =>
      w < |s.workers| && s.workers[w].Idle? && at <= s.now && GrantableAll(c, Opened(s, w, at), w, at, picks)
    case Check(w) => AtItem(s, w) && s.workers[w].phase.Ready?
    case Start(w) => AtItem(s, w) && s.workers[w].phase.Checked?
    case End(w, _) => AtItem(s, w) && s.workers[w].phase.Publishing?
    case Mark(w, _, failedAt, backoff) =>
      && AtItem(s, w) && s.workers[w].phase.Returned?
      && s.workers[w].since <= failedAt <= s.now
      && backoff <= c.maxBackoff
    case Finish(w) => IsBusy(s, w) && s.workers[w].phase.Ready? && s.workers[w].pos == |s.workers[w].items|
    case Crash(w) => IsBusy(s, w)
  }

  /** A row as NewEvent and Insert create it. */
  function NewRow(maxRetries: int, createdAt: Time, nextRetryAt: Time): Row {
    Row(Pending, 0, maxRetries, createdAt, nextRetryAt, None, None, None)
  }

  /** The fenced statement and its ledger entry. */
  function MarkedRow(r: Row, item: Item, outcome: Outcome, now: Time, nextRetry: Time): Row {
    match outcome
    case Success => PublishedRow(r, now)
    case Failure(nonRetryable) => FailedRow(r, nextRetry, FinalFail(item, nonRetryable))
  }

  function MarkEntry(item: Item, outcome: Outcome, failedAt: Time, nextRetry: Time): Entry {
    match outcome
    case Success => MarkedPublished(item.id, item.token)
    case Failure(nonRetryable) =>
      MarkedFailed(item.id, item.token, FinalFail(item, nonRetryable), failedAt, nextRetry)
  }

  /** Where the worker goes: a failed MarkPublished ends ProcessBatch, a failed MarkFailed goes on to the next event. */
  function AfterMark(wk: Worker, now: Time, hit: bool, reply: Reply): Worker
    requires wk.Busy? && wk.phase.Returned?
  {
    var ok := hit && reply.Acked?;
    if wk.phase.outcome.Success? && !ok then Idle
    else wk.(pos := wk.pos + 1, phase := Ready, since := now,
             count := if ok then wk.count + 1 else wk.count,
             lost := if hit && reply.Lost? then wk.lost + 1 else wk.lost)
  }

  function ApplyMark(s: State, w: nat, reply: Reply, failedAt: Time, nextRetry: Time): State
    requires AtItem(s, w) && s.workers[w].phase.Returned?
  {
    var item := Current(s, w);
    var outcome := s.workers[w].phase.outcome;
    var hit := Matches(s.rows, item.id, item.token);
    var s1 := s.(workers := s.workers[w := AfterMark(s.workers[w], s.now, hit, reply)]);
    if hit && !reply.Refused? then
      s1.(rows := s.rows[item.id := MarkedRow(s.rows[item.id], item, outcome, failedAt, nextRetry)],
          log := s.log + [MarkEntry(item, outcome, failedAt, nextRetry)])
    else s1
  }

  function ApplyCheck(s: State, w: nat): State
    requires AtItem(s, w)
  {
    var wk := s.workers[w];
    if Current(s, w).lockedUntil <= s.now then s.(workers := s.workers[w := wk.(pos := wk.pos + 1, since := s.now)])
    else s.(workers := s.workers[w := wk.(phase := Checked, since := s.now)])
  }

  function ApplyEnd(s: State, w: nat, outcome: Outcome): State
    requires AtItem(s, w)
  {
    s.(workers := s.workers[w := s.workers[w].(phase := Returned(outcome), since := s.now)],
       log := s.log + [PublishEnded(Current(s, w).id, Current(s, w).token, outcome, s.now)])
  }

  function Apply(c: Config, s: State, a: Action): State
    requires Enabled(c, s, a)
  {
    match a
    case Insert(id, maxRetries, createdAt, nextRetryAt) =>
      s.(rows := s.rows[id := NewRow(maxRetries, createdAt, nextRetryAt)], log := s.log + [Inserted(id, nextRetryAt)])
    case Tick(d) => s.(now := s.now + d)
    case Fetch(w, at, picks) => GrantAll(c, Opened(s, w, at), w, at, picks)
    case Check(w) => ApplyCheck(s, w)
    case Start(w) => s.(workers := s.workers[w := s.workers[w].(phase := Publishing, since := s.now)])
    case End(w, outcome) => ApplyEnd(s, w, outcome)
    case Mark(w, reply, failedAt, backoff) => ApplyMark(s, w, reply, failedAt, failedAt + backoff)
    case Finish(w) => s.(workers := s.workers[w := Idle])
    case Crash(w) => s.(workers := s.workers[w := Idle])
  }

  /** acts can be taken one after the other from s. */
  predicate ValidRun(c: Config, s: State, acts: seq<Action>)
    decreases |acts|
  {
    acts == [] || (Enabled(c, s, acts[0]) && ValidRun(c, Apply(c, s, acts[0]), acts[1..]))
  }

  function Exec(c: Config, s: State, acts: seq<Action>): State
    requires ValidRun(c, s, acts)
    decreases |acts|
  {
    if acts == [] then s else Exec(c, Apply(c, s, acts[0]), acts[1..])
  }

  // ---------------------------------------------------------------------------------------------------------
  // The safety invariant
  // ---------------------------------------------------------------------------------------------------------

  /** Token, expiry and PROCESSING go together; the retry budget is never overrun. */
  ghost predicate RowOk(c: Config, s: State, id: Id, r: Row) {
    && !r.status.Failed?
    && (r.leaseToken.Some? <==> r.status.Processing?)
    && (r.lockedUntil.Some? <==> r.status.Processing?)
    && (r.publishedAt.Some? <==> r.status.Published?)
    && 0 <= r.retryCount && IsInt4(r.maxRetries)
    && (if r.status.DeadLetter? then r.retryCount <= Cap(r.maxRetries) else r.retryCount < Cap(r.maxRetries))
    && (r.status.Processing? ==>
          && r.lockedUntil.value <= s.now + c.lease
          && r.leaseToken.value in s.issued
          && s.issued[r.leaseToken.value] == Item(id, r.leaseToken.value, r.lockedUntil.value, r.retryCount,
                                                  r.maxRetries))
  }

  ghost predicate ItemOk(c: Config, s: State, wk: Worker, item: Item)
    requires wk.Busy?
  {
    && item.token in s.issued && s.issued[item.token] == item
    && item.id in s.rows
    && item.lockedUntil == wk.fetchedAt + c.lease
  }

  ghost predicate WorkerOk(c: Config, s: State, wk: Worker) {
    wk.Busy? ==>
      && wk.pos <= |wk.items| <= c.limit
      && (!wk.phase.Ready? ==> wk.pos < |wk.items|)
      && wk.fetchedAt <= wk.since <= s.now
      && (forall i | 0 <= i < |wk.items| :: ItemOk(c, s, wk, wk.items[i]))
      && (forall i, j | 0 <= i < j < |wk.items| :: wk.items[i].id != wk.items[j].id)
  }

  /** Worker w may still publish or mark items[i]. */
  ghost predicate Holds(s: State, w: nat, i: nat) {
    IsBusy(s, w) && s.workers[w].pos <= i < |s.workers[w].items|
  }

  ghost predicate IsSlot(s: State, w: nat, i: nat) {
    IsBusy(s, w) && i < |s.workers[w].items|
  }

  /** A token is carried by one slot of one worker. */
  ghost predicate SlotsUnique(s: State) {
    forall w1: nat, i1: nat, w2: nat, i2: nat | IsSlot(s, w1, i1) && IsSlot(s, w2, i2) ::
      s.workers[w1].items[i1].token == s.workers[w2].items[i2].token ==> w1 == w2 && i1 == i2
  }

  /** The row still is what the item says it is. */
  ghost predicate UpToDate(s: State, item: Item) {
    && item.id in s.rows
    && s.rows[item.id].leaseToken == Some(item.token)
    && s.rows[item.id].lockedUntil == Some(item.lockedUntil)
    && s.rows[item.id].retryCount == item.retryCount
    && s.rows[item.id].maxRetries == item.maxRetries
  }

  ghost predicate SnapshotOrStale(s: State) {
    forall w: nat, i: nat | Holds(s, w, i) ::
      UpToDate(s, s.workers[w].items[i]) || s.workers[w].items[i].lockedUntil < s.now
  }

  ghost predicate IssuedOk(s: State) {
    forall t | t in s.issued ::
      && s.issued[t].token == t && t != NIL_TOKEN
      && 0 <= s.issued[t].retryCount && IsInt4(s.issued[t].retryCount + 1)
  }

  ghost predicate Safe(c: Config, s: State) {
    && IssuedOk(s)
    && (forall id | id in s.rows :: RowOk(c, s, id, s.rows[id]))
    && (forall w | 0 <= w < |s.workers| :: WorkerOk(c, s, s.workers[w]))
    && SlotsUnique(s)
    && SnapshotOrStale(s)
  }

  lemma InitSafe(c: Config, start: Time, n: nat)
    ensures Safe(c, Init(start, n))
  {
  }

  lemma InsertSafe(c: Config, s: State, a: Action)
    requires Safe(c, s) && a.Insert? && Enabled(c, s, a)
    ensures Safe(c, Apply(c, s, a))
  {
  }

  lemma TickSafe(c: Config, s: State, a: Action)
    requires Safe(c, s) && a.Tick? && Enabled(c, s, a)
    ensures Safe(c, Apply(c, s, a))
  {
  }

  /** Worker w keeps its batch and lets go of a prefix of it, or of all of it; the table is untouched. */
  ghost predicate WorkerStep(c: Config, s: State, s': State, w: nat) {
    && IsBusy(s, w)
    && s'.now == s.now && s'.rows == s.rows && s'.issued == s.issued
    && |s'.workers| == |s.workers|
    && s' == s.(workers := s.workers[w := s'.workers[w]], log := s'.log)
    && WorkerOk(c, s, s'.workers[w])
    && (s'.workers[w].Busy? ==>
          s'.workers[w].items == s.workers[w].items && s.workers[w].pos <= s'.workers[w].pos)
  }

  lemma WorkerStepSafe(c: Config, s: State, s': State, w: nat)
    requires Safe(c, s) && WorkerStep(c, s, s', w)
    ensures Safe(c, s')
  {
    forall id | id in s'.rows ensures RowOk(c, s', id, s'.rows[id]) {
      assert RowOk(c, s, id, s.rows[id]);
    }
    forall v | 0 <= v < |s'.workers| ensures WorkerOk(c, s', s'.workers[v]) {
      assert WorkerOk(c, s, s.workers[v]);
    }
    assert forall v: nat, i: nat | IsSlot(s', v, i) :: IsSlot(s, v, i) && s'.workers[v].items == s.workers[v].items;
    assert forall v: nat, i: nat | Holds(s', v, i) :: Holds(s, v, i);
  }

  lemma LocalSafe(c: Config, s: State, a: Action, w: nat)
    requires Safe(c, s) && Enabled(c, s, a)
    requires a in {Check(w), Start(w), Finish(w), Crash(w)} || (a.End? && a.w == w)
    ensures Safe(c, Apply(c, s, a))
  {
    var s' := Apply(c, s, a);
    assert WorkerOk(c, s, s.workers[w]);
    WorkerStepSafe(c, s, s', w);
  }

  lemma OpenedSafe(c: Config, s: State, w: nat, at: Time)
    requires Safe(c, s) && w < |s.workers| && s.workers[w].Idle? && at <= s.now
    ensures Safe(c, Opened(s, w, at))
  {
    var s' := Opened(s, w, at);
    forall v | 0 <= v < |s'.workers| ensures WorkerOk(c, s', s'.workers[v]) {
      assert WorkerOk(c, s, s.workers[v]);
    }
    forall id | id in s'.rows ensures RowOk(c, s', id, s'.rows[id]) {
      assert RowOk(c, s, id, s.rows[id]);
    }
    assert forall v: nat, i: nat | IsSlot(s', v, i) :: IsSlot(s, v, i) && v != w;
    assert forall v: nat, i: nat | Holds(s', v, i) :: Holds(s, v, i) && v != w;
  }

  /** Inside one lease statement every row taken so far is still exactly as leased. */
  ghost predicate Collecting(s: State, w: nat, at: Time) {
    && IsBusy(s, w) && s.workers[w].fetchedAt == at
    && forall i | 0 <= i < |s.workers[w].items| :: UpToDate(s, s.workers[w].items[i])
  }

  lemma GrantSafe(c: Config, s: State, w: nat, at: Time, p: Pick)
    requires Safe(c, s) && Grantable(c, s, w, at, p)
    requires Collecting(s, w, at)
    ensures Safe(c, Grant(c, s, w, at, p)) && Collecting(Grant(c, s, w, at, p), w, at)
  {
    var s' := Grant(c, s, w, at, p);
    forall id | id in s'.rows ensures RowOk(c, s', id, s'.rows[id]) {
      assert RowOk(c, s, id, s.rows[id]);
    }
    assert WorkerOk(c, s, s.workers[w]);
    GrantWorkers(c, s, w, at, p, s');
    assert forall i | 0 <= i < |s.workers[w].items| :: s'.workers[w].items[i] == s.workers[w].items[i];
    GrantSlots(c, s, w, at, p, s');
    GrantHolds(c, s, w, at, p, s');
  }

  lemma GrantWorkers(c: Config, s: State, w: nat, at: Time, p: Pick, s': State)
    requires Safe(c, s) && Grantable(c, s, w, at, p) && s' == Grant(c, s, w, at, p)
    requires Collecting(s, w, at)
    ensures forall v | 0 <= v < |s'.workers| :: WorkerOk(c, s', s'.workers[v])
  {
    forall v | 0 <= v < |s'.workers| ensures WorkerOk(c, s', s'.workers[v]) {
      assert WorkerOk(c, s, s.workers[v]);
      if v == w {
        var wk := s.workers[w];
        forall i | 0 <= i < |wk.items| ensures wk.items[i].id != p.id {
          assert UpToDate(s, wk.items[i]) && ItemOk(c, s, wk, wk.items[i]);
        }
      }
    }
  }

  lemma GrantSlots(c: Config, s: State, w: nat, at: Time, p: Pick, s': State)
    requires Safe(c, s) && Grantable(c, s, w, at, p) && s' == Grant(c, s, w, at, p)
    ensures SlotsUnique(s')
  {
    forall v: nat, i: nat | IsSlot(s, v, i) ensures s.workers[v].items[i].token != p.token {
      assert WorkerOk(c, s, s.workers[v]) && ItemOk(c, s, s.workers[v], s.workers[v].items[i]);
    }
    assert forall v: nat, i: nat | IsSlot(s', v, i) :: IsSlot(s, v, i) || (v == w && i == |s.workers[w].items|);
  }

  /** Whoever held a leased row before is stale: the lease query only takes rows with no live lease. */
  lemma GrantHolds(c: Config, s: State, w: nat, at: Time, p: Pick, s': State)
    requires Safe(c, s) && Grantable(c, s, w, at, p) && s' == Grant(c, s, w, at, p)
    requires at == s.workers[w].fetchedAt
    ensures SnapshotOrStale(s')
  {
    assert WorkerOk(c, s, s.workers[w]);
    forall v: nat, i: nat | Holds(s', v, i)
      ensures UpToDate(s', s'.workers[v].items[i]) || s'.workers[v].items[i].lockedUntil < s'.now
    {
      if v != w || i < |s.workers[w].items| {
        assert Holds(s, v, i);
        var item := s.workers[v].items[i];
        if item.id == p.id && UpToDate(s, item) {
          assert RowOk(c, s, item.id, s.rows[item.id]);
        }
      }
    }
  }

  lemma {:induction false} GrantAllSafe(c: Config, s: State, w: nat, at: Time, picks: seq<Pick>)
    requires Safe(c, s) && GrantableAll(c, s, w, at, picks)
    requires Collecting(s, w, at)
    ensures Safe(c, GrantAll(c, s, w, at, picks)) && Collecting(GrantAll(c, s, w, at, picks), w, at)
    decreases |picks|
  {
    if picks != [] {
      GrantSafe(c, s, w, at, picks[0]);
      GrantAllSafe(c, Grant(c, s, w, at, picks[0]), w, at, picks[1..]);
    }
  }

  /** The mark hits its row: the row is still the item's, and nobody else holds that token. */
  lemma MarkHitRows(c: Config, s: State, w: nat, reply: Reply, failedAt: Time, nextRetry: Time, s': State)
    requires Safe(c, s) && AtItem(s, w) && s.workers[w].phase.Returned?
    requires Matches(s.rows, Current(s, w).id, Current(s, w).token) && !reply.Refused?
    requires s' == ApplyMark(s, w, reply, failedAt, nextRetry)
    ensures forall id | id in s'.rows :: RowOk(c, s', id, s'.rows[id])
    ensures forall v | 0 <= v < |s'.workers| :: WorkerOk(c, s', s'.workers[v])
  {
    var item := Current(s, w);
    assert WorkerOk(c, s, s.workers[w]) && ItemOk(c, s, s.workers[w], item);
    assert RowOk(c, s, item.id, s.rows[item.id]);
    forall id | id in s'.rows ensures RowOk(c, s', id, s'.rows[id]) {
      assert RowOk(c, s, id, s.rows[id]);
    }
    forall v | 0 <= v < |s'.workers| ensures WorkerOk(c, s', s'.workers[v]) {
      assert WorkerOk(c, s, s.workers[v]);
    }
  }

  lemma MarkHitHolds(c: Config, s: State, w: nat, reply: Reply, failedAt: Time, nextRetry: Time, s': State)
    requires Safe(c, s) && AtItem(s, w) && s.workers[w].phase.Returned?
    requires Matches(s.rows, Current(s, w).id, Current(s, w).token) && !reply.Refused?
    requires s' == ApplyMark(s, w, reply, failedAt, nextRetry)
    ensures SlotsUnique(s') && SnapshotOrStale(s')
  {
    assert forall v: nat, i: nat | IsSlot(s', v, i) :: IsSlot(s, v, i) && s'.workers[v].items == s.workers[v].items;
    forall v: nat, i: nat | Holds(s', v, i)
      ensures UpToDate(s', s'.workers[v].items[i]) || s'.workers[v].items[i].lockedUntil < s'.now
    {
      assert Holds(s, v, i);
      assert IsSlot(s, v, i) && IsSlot(s, w, s.workers[w].pos);
    }
  }

  lemma MarkSafe(c: Config, s: State, a: Action)
    requires Safe(c, s) && a.Mark? && Enabled(c, s, a)
    ensures Safe(c, Apply(c, s, a))
  {
    hide RowOk, SlotsUnique, SnapshotOrStale;
    var s', w, next := Apply(c, s, a), a.w, a.failedAt + a.backoff;
    var item := Current(s, w);
    if Matches(s.rows, item.id, item.token) && !a.reply.Refused? {
      MarkHitRows(c, s, w, a.reply, a.failedAt, next, s');
      MarkHitHolds(c, s, w, a.reply, a.failedAt, next, s');
    } else {
      assert WorkerOk(c, s, s.workers[w]);
      WorkerStepSafe(c, s, s', w);
    }
  }

  lemma StepSafe(c: Config, s: State, a: Action)
    requires Safe(c, s) && Enabled(c, s, a)
    ensures Safe(c, Apply(c, s, a))
  {
    match a
    case Insert(_, _, _, _) => InsertSafe(c, s, a);
    case Tick(_) => TickSafe(c, s, a);
    case Fetch(w, at, picks) =>
      OpenedSafe(c, s, w, at);
      GrantAllSafe(c, Opened(s, w, at), w, at, picks);
    case Mark(_, _, _, _) => MarkSafe(c, s, a);
    case Check(w) => LocalSafe(c, s, a, w);
    case Start(w) => LocalSafe(c, s, a, w);
    case End(w, _) => LocalSafe(c, s, a, w);
    case Finish(w) => LocalSafe(c, s, a, w);
    case Crash(w) => LocalSafe(c, s, a, w);
  }

  /** Safe holds in every reachable state. */
  lemma {:induction false} RunSafe(c: Config, s: State, acts: seq<Action>)
    requires Safe(c, s) && ValidRun(c, s, acts)
    ensures Safe(c, Exec(c, s, acts))
    decreases |acts|
  {
    if acts != [] {
      StepSafe(c, s, acts[0]);
      RunSafe(c, Apply(c, s, acts[0]), acts[1..]);
    }
  }
}
