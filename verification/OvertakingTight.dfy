/**
 * Both conditions of BoundedOvertaking are needed. Its bound is attained for every batch size and budget, so no bound
 * holds without one; and when fetches take full batches but need not take the oldest rows, a row can be passed over any
 * number of times whatever the budgets are.
 */
module OvertakingTight {
  import opened OutboxTypes
  import opened LeaseProtocol
  import opened MapSums
  import opened Batches
  import opened BoundedOvertaking

  /** A batch of eligible rows that leaves one out only when it is full, whatever their age. */
  ghost predicate FullBatch(rows: map<Id, Row>, at: Time, limit: nat, ids: seq<Id>) {
    && DistinctIds(ids) && |ids| <= limit
    && (forall i | 0 <= i < |ids| :: ids[i] in rows && Eligible(rows[ids[i]], at))
    && (forall id | id in rows && Eligible(rows[id], at) && id !in ids :: |ids| == limit)
  }

  /** Calm, or calm but for the order of its fetches. */
  ghost predicate AsCalm(c: Config, s: State, a: Action, x: Id, orderly: bool)
    requires x in s.rows && Enabled(c, s, a)
  {
    if orderly || !a.Fetch? then Calm(c, s, a, x, 0)
    else 0 <= a.at && InForce(s, a.at) && FullBatch(s.rows, a.at, c.limit, PickIds(a.picks))
  }

  /** A run from s to s' that does not lease x. */
  ghost predicate Passes(c: Config, s: State, acts: seq<Action>, s': State, x: Id, orderly: bool)
    decreases |acts|
  {
    if acts == [] then s' == s
    else
      && x in s.rows && Enabled(c, s, acts[0]) && !Leases(acts[0], x) && AsCalm(c, s, acts[0], x, orderly)
      && Passes(c, Apply(c, s, acts[0]), acts[1..], s', x, orderly)
  }

  lemma PassOne(c: Config, s: State, a: Action, x: Id, orderly: bool)
    requires x in s.rows && Enabled(c, s, a) && !Leases(a, x) && AsCalm(c, s, a, x, orderly)
    ensures Passes(c, s, [a], Apply(c, s, a), x, orderly) && Fetches([a]) == if a.Fetch? then 1 else 0
  {
    hide Enabled, Apply, AsCalm, Leases;
    assert [a][1..] == [];
  }

  lemma {:induction false} PassThen(c: Config, s: State, acts: seq<Action>, s1: State, more: seq<Action>, s2: State,
                                    x: Id, orderly: bool)
    requires Passes(c, s, acts, s1, x, orderly) && Passes(c, s1, more, s2, x, orderly)
    ensures Passes(c, s, acts + more, s2, x, orderly) && Fetches(acts + more) == Fetches(acts) + Fetches(more)
    decreases |acts|
  {
    hide Enabled, Apply, AsCalm, Leases;
    if acts == [] {
      assert acts + more == more;
    } else {
      assert (acts + more)[1..] == acts[1..] + more;
      PassThen(c, Apply(c, s, acts[0]), acts[1..], s1, more, s2, x, orderly);
    }
  }

  lemma {:induction false} PassesIsRun(c: Config, s: State, acts: seq<Action>, s': State, x: Id, orderly: bool)
    requires Passes(c, s, acts, s', x, orderly)
    ensures ValidRun(c, s, acts) && Exec(c, s, acts) == s'
    ensures forall i | 0 <= i < |acts| :: !Leases(acts[i], x)
    ensures orderly ==> CalmRun(c, s, acts, x, 0)
    decreases |acts|
  {
    hide Enabled, Apply, Calm, Leases;
    if acts != [] {
      PassesIsRun(c, Apply(c, s, acts[0]), acts[1..], s', x, orderly);
    }
  }

  // ---------------------------------------------------------------------------------------------------------
  // One batch, without any time passing
  // ---------------------------------------------------------------------------------------------------------

  /** The only worker is idle, and x has been due since time 0. */
  ghost predicate Idling(c: Config, s: State, x: Id) {
    && 1 <= c.limit && 1 <= c.lease && Safe(c, s) && |s.workers| == 1 && s.workers[0].Idle? && 0 <= s.now
    && x in s.rows && Eligible(s.rows[x], 0)
  }

  /** Worker 0 is about to begin event pos, and the rest of its batch is freshly leased and does not hold x. */
  ghost predicate Serving(c: Config, s: State, x: Id, pos: nat) {
    ReadyAt(c, s, 0, pos) && |s.workers| == 1 && x in s.rows && x !in ItemIds(s.workers[0].items)
  }

  /** What an attempt with this outcome makes of a row. */
  ghost predicate Attempted(r: Row, r': Row, outcome: Outcome, now: Time) {
    && r'.createdAt == r.createdAt && r'.maxRetries == r.maxRetries
    && (outcome == Success ==> r'.status.Published?)
    && (outcome == Failure(false) ==>
          && r'.retryCount == r.retryCount + 1 && r'.nextRetryAt == now
          && r'.status == if r.retryCount + 1 >= r.maxRetries then DeadLetter else Pending)
  }

  /** Each of these rows was attempted once, and the others stay as they are. */
  ghost predicate AllAttempted(rows: map<Id, Row>, rows': map<Id, Row>, ids: seq<Id>, outcome: Outcome, now: Time) {
    && rows'.Keys == rows.Keys
    && (forall id | id in rows ::
          if id in ids then Attempted(rows[id], rows'[id], outcome, now) else rows'[id] == rows[id])
  }

  /** Check, start, end and mark one event. */
  lemma ServeOne(c: Config, s: State, x: Id, pos: nat, outcome: Outcome, orderly: bool)
    returns (acts: seq<Action>, s': State)
    requires Serving(c, s, x, pos) && pos < |s.workers[0].items|
    ensures Passes(c, s, acts, s', x, orderly) && Fetches(acts) == 0
    ensures Serving(c, s', x, pos + 1) && s'.now == s.now && s'.workers[0].items == s.workers[0].items
    ensures var item := s.workers[0].items[pos];
            UpToDate(s, item) && s'.rows == s.rows[item.id := MarkedRow(s.rows[item.id], item, outcome, s.now, s.now)]
  {
    hide Safe, Passes, Fetches;
    var s1, s2, s3;
    s1, s2, s3, s' := AttemptNow(c, s, 0, pos, outcome);
    var mark := Mark(0, Acked, s.now, 0);
    PassOne(c, s, Check(0), x, orderly);
    PassOne(c, s1, Start(0), x, orderly);
    PassOne(c, s2, End(0, outcome), x, orderly);
    PassOne(c, s3, mark, x, orderly);
    hide Enabled, Apply;
    PassThen(c, s, [Check(0)], s1, [Start(0)], s2, x, orderly);
    PassThen(c, s, [Check(0)] + [Start(0)], s2, [End(0, outcome)], s3, x, orderly);
    acts := [Check(0)] + [Start(0)] + [End(0, outcome)];
    PassThen(c, s, acts, s3, [mark], s', x, orderly);
    acts := acts + [mark];
  }

  /** The rest of the batch. */
  lemma {:induction false} ServeRest(c: Config, s: State, x: Id, pos: nat, outcome: Outcome, orderly: bool)
    returns (acts: seq<Action>, s': State)
    requires Serving(c, s, x, pos)
    ensures Passes(c, s, acts, s', x, orderly) && Fetches(acts) == 0
    ensures Serving(c, s', x, |s.workers[0].items|) && s'.now == s.now && s'.workers[0].items == s.workers[0].items
    ensures AllAttempted(s.rows, s'.rows, ItemIds(s.workers[0].items)[pos..], outcome, s.now)
    decreases |s.workers[0].items| - pos
  {
    hide Safe, Passes, Fetches;
    var items := s.workers[0].items;
    if pos == |items| {
      acts, s' := [], s;
      NoSteps(c, s, x, orderly);
    } else {
      var first, s1 := ServeOne(c, s, x, pos, outcome, orderly);
      var rest;
      rest, s' := ServeRest(c, s1, x, pos + 1, outcome, orderly);
      PassThen(c, s, first, s1, rest, s', x, orderly);
      acts := first + rest;
      DistinctItems(c, s, 0);
      OneMoreAttempted(s.rows, s'.rows, items, pos, outcome, s.now);
    }
  }

  lemma NoSteps(c: Config, s: State, x: Id, orderly: bool)
    ensures Passes(c, s, [], s, x, orderly) && Fetches([]) == 0
  {
  }

  lemma DistinctItems(c: Config, s: State, w: nat)
    requires Safe(c, s) && IsBusy(s, w)
    ensures DistinctIds(ItemIds(s.workers[w].items))
  {
    assert WorkerOk(c, s, s.workers[w]);
  }

  lemma OneMoreAttempted(rows: map<Id, Row>, rows': map<Id, Row>, items: seq<Item>, pos: nat, outcome: Outcome,
                         now: Time)
    requires pos < |items| && DistinctIds(ItemIds(items))
    requires var item := items[pos];
             && item.id in rows && item.retryCount == rows[item.id].retryCount
             && item.maxRetries == rows[item.id].maxRetries
             && AllAttempted(rows[item.id := MarkedRow(rows[item.id], item, outcome, now, now)], rows',
                             ItemIds(items)[pos + 1..], outcome, now)
    ensures AllAttempted(rows, rows', ItemIds(items)[pos..], outcome, now)
  {
    var ids := ItemIds(items);
    assert ids[pos..] == [ids[pos]] + ids[pos + 1..];
    assert ids[pos] !in ids[pos + 1..];
  }

  /** Lease these rows, attempt each of them once and finish. */
  lemma Serve(c: Config, s: State, x: Id, ids: seq<Id>, outcome: Outcome, orderly: bool)
    returns (acts: seq<Action>, s': State)
    requires Idling(c, s, x) && x !in ids && DistinctIds(ids) && |ids| <= c.limit
    requires forall i | 0 <= i < |ids| :: ids[i] in s.rows && Eligible(s.rows[ids[i]], s.now)
    requires if orderly then Unpassed(s.rows, s.now, c.limit, ids, x) else FullBatch(s.rows, s.now, c.limit, ids)
    ensures Passes(c, s, acts, s', x, orderly) && Fetches(acts) == 1
    ensures Idling(c, s', x) && s'.now == s.now
    ensures AllAttempted(s.rows, s'.rows, ids, outcome, s.now)
  {
    hide Safe, Passes, Fetches, Enabled, Apply, Unpassed, FullBatch, ReadyAt;
    var a := FetchNow(c, s, 0, ids);
    var s1 := Apply(c, s, a);
    LeasePasses(c, s, a, x, orderly);
    LeaseBatch(c, s, a, x);
    var more;
    more, s' := ServeAll(c, s1, x, outcome, orderly);
    PassThen(c, s, [a], s1, more, s', x, orderly);
    acts := [a] + more;
    AttemptedFromLeased(s.rows, s1.rows, s'.rows, ids, outcome, s.now);
  }

  /** The whole batch, and the end of the call. */
  lemma ServeAll(c: Config, s: State, x: Id, outcome: Outcome, orderly: bool) returns (acts: seq<Action>, s': State)
    requires Serving(c, s, x, 0)
    ensures Passes(c, s, acts, s', x, orderly) && Fetches(acts) == 0
    ensures Safe(c, s') && |s'.workers| == 1 && s'.workers[0].Idle? && s'.now == s.now
    ensures AllAttempted(s.rows, s'.rows, ItemIds(s.workers[0].items), outcome, s.now)
  {
    hide Safe, Passes, Fetches;
    var more, s1 := ServeRest(c, s, x, 0, outcome, orderly);
    assert ItemIds(s.workers[0].items)[0..] == ItemIds(s.workers[0].items);
    s' := Apply(c, s1, Finish(0));
    StepSafe(c, s1, Finish(0));
    PassOne(c, s1, Finish(0), x, orderly);
    hide Enabled, Apply;
    PassThen(c, s, more, s1, [Finish(0)], s', x, orderly);
    acts := more + [Finish(0)];
  }

  lemma LeasePasses(c: Config, s: State, a: Action, x: Id, orderly: bool)
    requires Idling(c, s, x) && a.Fetch? && a.at == s.now && x !in PickIds(a.picks) && Enabled(c, s, a)
    requires var ids := PickIds(a.picks);
             if orderly then Unpassed(s.rows, s.now, c.limit, ids, x) else FullBatch(s.rows, s.now, c.limit, ids)
    ensures Passes(c, s, [a], Apply(c, s, a), x, orderly) && Fetches([a]) == 1
  {
    hide Safe, Enabled, Apply, Unpassed, FullBatch;
    assert forall i | 0 <= i < |a.picks| :: PickIds(a.picks)[i] == a.picks[i].id;
    PassOne(c, s, a, x, orderly);
  }

  lemma LeaseBatch(c: Config, s: State, a: Action, x: Id)
    requires Idling(c, s, x) && a.Fetch? && a.at == s.now && x !in PickIds(a.picks) && Enabled(c, s, a)
    ensures var s1 := Apply(c, s, a);
            && Serving(c, s1, x, 0) && s1.now == s.now && ItemIds(s1.workers[0].items) == PickIds(a.picks)
            && s1.rows.Keys == s.rows.Keys
            && (forall id | id in s.rows ::
                  && SameButLease(s.rows[id], s1.rows[id])
                  && (id !in PickIds(a.picks) ==> s1.rows[id] == s.rows[id]))
  {
    assert a.w == 0;
    hide Safe, Enabled, Apply, ReadyAt;
    FetchedReady(c, s, a);
    FetchRows(c, s, a);
    assert x in Apply(c, s, a).rows.Keys;
  }

  lemma FetchRows(c: Config, s: State, a: Action)
    requires a.Fetch? && Enabled(c, s, a)
    ensures var s' := Apply(c, s, a);
            && s'.rows.Keys == s.rows.Keys
            && (forall id | id in s.rows ::
                  && SameButLease(s.rows[id], s'.rows[id])
                  && (id !in PickIds(a.picks) ==> s'.rows[id] == s.rows[id]))
  {
    var s0, s' := Opened(s, a.w, a.at), Apply(c, s, a);
    GrantAllEffect(c, s0, a.w, a.at, a.picks);
    forall id | id in s.rows
      ensures SameButLease(s.rows[id], s'.rows[id]) && (id !in PickIds(a.picks) ==> s'.rows[id] == s.rows[id])
    {
      GrantAllFrame(c, s0, a.w, a.at, a.picks, id);
    }
  }

  /** A row that was leased before it was attempted was attempted. */
  lemma AttemptedFromLeased(rows: map<Id, Row>, rows1: map<Id, Row>, rows2: map<Id, Row>, ids: seq<Id>,
                            outcome: Outcome, now: Time)
    requires rows1.Keys == rows.Keys && AllAttempted(rows1, rows2, ids, outcome, now)
    requires forall id | id in rows ::
               SameButLease(rows[id], rows1[id]) && (id !in ids ==> rows1[id] == rows[id])
    ensures AllAttempted(rows, rows2, ids, outcome, now)
  {
  }

  // ---------------------------------------------------------------------------------------------------------
  // The budget is needed
  // ---------------------------------------------------------------------------------------------------------

  function FirstIds(m: nat): seq<Id> {
    seq(m, i => i)
  }

  /** One batch of older rows with `left` attempts left each, and x. */
  ghost predicate Blocked(c: Config, s: State, x: Id, ids: seq<Id>, left: nat) {
    && Idling(c, s, x) && DistinctIds(ids) && |ids| == c.limit && x !in ids && s.rows.Keys == IdSet(ids) + {x}
    && s.rows[x].createdAt == 1
    && (forall id | id in ids ::
          var r := s.rows[id];
          && r.createdAt == 0 && r.nextRetryAt <= s.now && 1 <= r.maxRetries && 0 <= r.retryCount
          && Budget(r) == left && (left > 0 ==> r.status.Pending?))
  }

  /** As long as they have attempts left, the oldest batch is these rows. */
  lemma {:induction false} BlockedFor(c: Config, s: State, x: Id, ids: seq<Id>, left: nat)
    returns (acts: seq<Action>, s': State)
    requires Blocked(c, s, x, ids, left)
    ensures Passes(c, s, acts, s', x, true) && Fetches(acts) == left
    decreases left
  {
    hide Safe, Passes, Fetches;
    if left == 0 {
      acts, s' := [], s;
      NoSteps(c, s, x, true);
    } else {
      assert OldestBatch(s.rows - {}, s.now, c.limit, ids) by {
        assert s.rows - {} == s.rows;
        assert forall i | 0 <= i < |ids| :: ids[i] in ids && ids[i] in IdSet(ids);
      }
      var first, s1 := Serve(c, s, x, ids, Failure(false), true);
      assert x in s.rows && s1.rows[x] == s.rows[x];
      var rest;
      rest, s' := BlockedFor(c, s1, x, ids, left - 1);
      PassThen(c, s, first, s1, rest, s', x, true);
      acts := first + rest;
    }
  }

  /** A run of the protocol that ends in this state. */
  ghost predicate Reached(c: Config, past: seq<Action>, s: State) {
    ValidRun(c, Init(0, 1), past) && Exec(c, Init(0, 1), past) == s
  }

  lemma {:induction false} OneMoreStep(c: Config, s: State, past: seq<Action>, a: Action)
    requires ValidRun(c, s, past) && Enabled(c, Exec(c, s, past), a)
    ensures ValidRun(c, s, past + [a]) && Exec(c, s, past + [a]) == Apply(c, Exec(c, s, past), a)
    decreases |past|
  {
    hide Enabled, Apply;
    if past == [] {
      assert [a][1..] == [];
    } else {
      assert (past + [a])[1..] == past[1..] + [a];
      OneMoreStep(c, Apply(c, s, past[0]), past[1..], a);
    }
  }

  /** The first m rows, with q attempts each. */
  lemma {:induction false} Seed(c: Config, m: nat, q: nat) returns (past: seq<Action>, s: State)
    requires 1 <= q <= 0x7fff_ffff
    ensures Reached(c, past, s) && s == Init(0, 1).(rows := s.rows, log := s.log)
    ensures s.rows.Keys == IdSet(FirstIds(m)) && forall id: Id | id < m :: id in s.rows && s.rows[id] == NewRow(q, 0, 0)
  {
    if m == 0 {
      past, s := [], Init(0, 1);
    } else {
      var s0;
      past, s0 := Seed(c, m - 1, q);
      var a := Insert(m - 1, q, 0, 0);
      assert m - 1 !in FirstIds(m - 1);
      assert FirstIds(m) == FirstIds(m - 1) + [m - 1];
      s := Apply(c, s0, a);
      OneMoreStep(c, Init(0, 1), past, a);
      past := past + [a];
    }
  }

  /** m rows of budget q ahead of x. */
  lemma TotalAhead(rows: map<Id, Row>, x: Id, ids: seq<Id>, q: int)
    requires DistinctIds(ids) && x !in ids && rows.Keys == IdSet(ids) + {x}
    requires forall id | id in ids :: rows[id].createdAt <= rows[x].createdAt && Budget(rows[id]) == q
    ensures AheadTotal(rows, x) == |ids| * q + Budget(rows[x])
  {
    var m := AheadBudgets(rows, x);
    assert m.Keys == IdSet(ids) + {x};
    TotalWithout(m, x);
    var rest := m - {x};
    assert rest.Keys == IdSet(ids);
    TotalUniform(rest, q);
    DistinctSize(ids);
  }

  /**
   * The bound of OvertakenAtMost is attained: for every batch size and every B that one batch of older rows and x can
   * have, some calm run from a reachable state lets floor((B - 1) / limit) batches go by without leasing x.
   */
  lemma BudgetNeeded(c: Config, b: nat) returns (past: seq<Action>, s: State, acts: seq<Action>, x: Id)
    requires 1 <= c.limit && 1 <= c.lease && 1 <= b
    requires (b - 1) / c.limit <= 0x7fff_ffff && (b - 1) % c.limit < 0x7fff_ffff
    ensures Reached(c, past, s) && Due(c, s, x, 0) && AheadTotal(s.rows, x) == b
    ensures CalmRun(c, s, acts, x, 0) && forall i | 0 <= i < |acts| :: !Leases(acts[i], x)
    ensures Fetches(acts) == (b - 1) / c.limit
  {
    hide Safe, Reached, Total, CalmRun, Eligible, InForce, IsHeld;
    var q, r := (b - 1) / c.limit, (b - 1) % c.limit;
    DivMod(b - 1, c.limit, q, r);
    past, s, acts, x := BudgetAttained(c, q, r);
  }

  lemma BudgetAttained(c: Config, q: nat, r: nat) returns (past: seq<Action>, s: State, acts: seq<Action>, x: Id)
    requires 1 <= c.limit && 1 <= c.lease && q <= 0x7fff_ffff && r < 0x7fff_ffff
    ensures Reached(c, past, s) && Due(c, s, x, 0) && AheadTotal(s.rows, x) == c.limit * q + r + 1
    ensures CalmRun(c, s, acts, x, 0) && forall i | 0 <= i < |acts| :: !Leases(acts[i], x)
    ensures Fetches(acts) == q
  {
    hide Safe, Reached, Passes, Total, Calm, Eligible, InForce, IsHeld, Blocked, Idling;
    x := c.limit;
    if q == 0 {
      past, s := Block(c, 0, 1, r, x);
      acts := [];
    } else {
      past, s := Block(c, c.limit, q, r, x);
      var s';
      acts, s' := BlockedFor(c, s, x, FirstIds(c.limit), q);
      PassesIsRun(c, s, acts, s', x, true);
    }
  }

  lemma DivMod(n: nat, k: nat, q: nat, r: nat)
    requires 1 <= k && q == n / k && r == n % k
    ensures k * q + r == n
  {
  }

  /** m rows with q attempts each, and then x with r + 1. */
  lemma Block(c: Config, m: nat, q: nat, r: nat, x: Id) returns (past: seq<Action>, s: State)
    requires 1 <= c.limit && 1 <= c.lease && 1 <= q <= 0x7fff_ffff && r < 0x7fff_ffff && m <= x
    ensures Reached(c, past, s) && Idling(c, s, x) && Due(c, s, x, 0) && AheadTotal(s.rows, x) == m * q + r + 1
    ensures m == c.limit ==> Blocked(c, s, x, FirstIds(m), q)
  {
    hide Safe, Total;
    var s0;
    past, s0 := Seed(c, m, q);
    assert x !in FirstIds(m) && x !in s0.rows.Keys;
    var a := Insert(x, r + 1, 1, 0);
    s := Apply(c, s0, a);
    OneMoreStep(c, Init(0, 1), past, a);
    past := past + [a];
    InitSafe(c, 0, 1);
    RunSafe(c, Init(0, 1), past);
    hide Reached, Apply, Enabled;
    TotalAhead(s.rows, x, FirstIds(m), q);
  }

  // ---------------------------------------------------------------------------------------------------------
  // The order is needed
  // ---------------------------------------------------------------------------------------------------------

  /** x is the oldest row, and the only one created at time 0. */
  ghost predicate Oldest(c: Config, s: State, x: Id) {
    && Idling(c, s, x) && s.rows[x].createdAt == 0
    && forall id | id in s.rows && id != x :: s.rows[id].createdAt == 1
  }

  /** k younger rows arrive. */
  lemma {:induction false} Arrive(c: Config, s: State, x: Id, k: nat)
    returns (acts: seq<Action>, s': State, ids: seq<Id>)
    requires Oldest(c, s, x)
    ensures Passes(c, s, acts, s', x, false) && Fetches(acts) == 0
    ensures Oldest(c, s', x) && s'.now == s.now
    ensures DistinctIds(ids) && |ids| == k && x !in ids
    ensures forall i | 0 <= i < k :: ids[i] in s'.rows && Eligible(s'.rows[ids[i]], s'.now)
  {
    if k == 0 {
      acts, s', ids := [], s, [];
      NoSteps(c, s, x, false);
    } else {
      var first, s1, rest := Arrive(c, s, x, k - 1);
      var bound := AboveAll(s1.rows.Keys);
      var y := bound + 1;
      var a := Insert(y, 1, 1, s1.now);
      assert y !in s1.rows.Keys;
      s' := Apply(c, s1, a);
      StepSafe(c, s1, a);
      hide Safe, Passes, Fetches;
      PassOne(c, s1, a, x, false);
      PassThen(c, s, first, s1, [a], s', x, false);
      acts, ids := first + [a], rest + [y];
    }
  }

  /** Younger rows keep coming, and a full batch of them is taken before x. */
  lemma {:induction false} PassedOver(c: Config, s: State, x: Id, n: nat) returns (acts: seq<Action>, s': State)
    requires Oldest(c, s, x)
    ensures Passes(c, s, acts, s', x, false) && Fetches(acts) == n
    decreases n
  {
    hide Safe, Passes, Fetches, Eligible;
    if n == 0 {
      acts, s' := [], s;
      NoSteps(c, s, x, false);
    } else {
      var arrival, s1, ids := Arrive(c, s, x, c.limit);
      var first, s2 := Serve(c, s1, x, ids, Success, false);
      assert x in s1.rows && s2.rows[x] == s1.rows[x];
      var rest;
      rest, s' := PassedOver(c, s2, x, n - 1);
      PassThen(c, s, arrival, s1, first, s2, x, false);
      PassThen(c, s, arrival + first, s2, rest, s', x, false);
      acts := arrival + first + rest;
    }
  }

  /**
   * Without oldest-first fetches x is passed over n times, for every batch size and every n, although B is 1: all else
   * is calm, every batch is full, every publish succeeds at once and no row is older than x.
   */
  lemma OrderNeeded(c: Config, n: nat) returns (past: seq<Action>, s: State, acts: seq<Action>, s': State, x: Id)
    requires 1 <= c.limit && 1 <= c.lease
    ensures Reached(c, past, s) && Due(c, s, x, 0) && AheadTotal(s.rows, x) == 1
    ensures Passes(c, s, acts, s', x, false) && Fetches(acts) == n
  {
    x := 0;
    var a := Insert(x, 1, 0, 0);
    s := Apply(c, Init(0, 1), a);
    past := [a];
    OneMoreStep(c, Init(0, 1), [], a);
    assert [] + [a] == [a];
    InitSafe(c, 0, 1);
    StepSafe(c, Init(0, 1), a);
    TotalAhead(s.rows, x, [], 0);
    hide Safe;
    acts, s' := PassedOver(c, s, x, n);
  }
}
