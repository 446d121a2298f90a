/**
 * The fitting condition of LeaseTiming is exact: when it fails, prompt workers, obedient publishers and successful
 * marks still have a run in which two of them publish one event at the same moment.
 */
module LeaseTight {
  import opened OutboxTypes
  import opened LeaseProtocol
  import opened LeaseTiming
  import Batches

  /** acts is a timed run from s to s'. */
  ghost predicate Leads(c: Config, t: Timing, s: State, acts: seq<Action>, s': State) {
    TimedRun(c, t, s, acts) && ValidRun(c, s, acts) && Exec(c, s, acts) == s'
  }

  lemma {:induction false} LeadsThen(c: Config, t: Timing, s: State, acts: seq<Action>, s1: State, more: seq<Action>,
                                     s2: State)
    requires Leads(c, t, s, acts, s1) && Leads(c, t, s1, more, s2)
    ensures Leads(c, t, s, acts + more, s2)
    decreases |acts|
  {
    if acts == [] {
      assert acts + more == more;
    } else {
      assert (acts + more)[1..] == acts[1..] + more;
      LeadsThen(c, t, Apply(c, s, acts[0]), acts[1..], s1, more, s2);
    }
  }

  lemma OneStep(c: Config, t: Timing, s: State, a: Action)
    requires Enabled(c, s, a) && InTime(t, s, a)
    ensures Leads(c, t, s, [a], Apply(c, s, a))
  {
    assert [a][1..] == [];
  }

  lemma TwoSteps(c: Config, t: Timing, s: State, a: Action, b: Action)
    requires Enabled(c, s, a) && InTime(t, s, a)
    requires Enabled(c, Apply(c, s, a), b) && InTime(t, Apply(c, s, a), b)
    ensures Leads(c, t, s, [a, b], Apply(c, Apply(c, s, a), b))
  {
    OneStep(c, t, s, a);
    OneStep(c, t, Apply(c, s, a), b);
    LeadsThen(c, t, s, [a], Apply(c, s, a), [b], Apply(c, Apply(c, s, a), b));
    assert [a] + [b] == [a, b];
  }

  /** Worker 0 is alone at events[pos], its phase just begun. */
  ghost predicate Lone(c: Config, s: State, items: seq<Item>, pos: nat, phase: Phase) {
    && Safe(c, s) && 2 <= |s.workers|
    && IsBusy(s, 0) && s.workers[0].items == items && s.workers[0].pos == pos && s.workers[0].phase == phase
    && s.workers[0].since == s.now
    && (forall v | 1 <= v < |s.workers| :: s.workers[v].Idle?)
  }

  /** The step changes neither the tokens issued nor when rows may be retried. */
  ghost predicate Gentle(s: State, s': State) {
    && s'.issued == s.issued && |s'.workers| == |s.workers|
    && (forall id | id in s.rows :: id in s'.rows && s'.rows[id].nextRetryAt == s.rows[id].nextRetryAt)
  }

  ghost function WaitThen(c: Config, s: State, d: nat, a: Action): State
    requires Enabled(c, Apply(c, s, Tick(d)), a)
  {
    Apply(c, Apply(c, s, Tick(d)), a)
  }

  lemma Wait(c: Config, t: Timing, s: State, items: seq<Item>, pos: nat, phase: Phase, d: nat)
    requires Lone(c, s, items, pos, phase) && d <= PhaseLimit(t, phase)
    ensures InTime(t, s, Tick(d)) && Safe(c, Apply(c, s, Tick(d)))
  {
    StepSafe(c, s, Tick(d));
  }

  lemma WaitCheck(c: Config, t: Timing, s: State, items: seq<Item>, pos: nat, d: nat) returns (s': State)
    requires Lone(c, s, items, pos, Ready) && pos < |items| && d <= t.gap && s.now + d < items[pos].lockedUntil
    ensures Leads(c, t, s, [Tick(d), Check(0)], s') && Lone(c, s', items, pos, Checked)
    ensures Gentle(s, s') && s'.rows == s.rows && s'.now == s.now + d
  {
    Wait(c, t, s, items, pos, Ready, d);
    s' := WaitThen(c, s, d, Check(0));
    TwoSteps(c, t, s, Tick(d), Check(0));
    StepSafe(c, Apply(c, s, Tick(d)), Check(0));
  }

  lemma WaitStart(c: Config, t: Timing, s: State, items: seq<Item>, pos: nat, d: nat) returns (s': State)
    requires Lone(c, s, items, pos, Checked) && pos < |items| && d <= t.gap
    ensures Leads(c, t, s, [Tick(d), Start(0)], s') && Lone(c, s', items, pos, Publishing)
    ensures Gentle(s, s') && s'.rows == s.rows && s'.now == s.now + d
  {
    Wait(c, t, s, items, pos, Checked, d);
    s' := WaitThen(c, s, d, Start(0));
    TwoSteps(c, t, s, Tick(d), Start(0));
    StepSafe(c, Apply(c, s, Tick(d)), Start(0));
  }

  lemma WaitEnd(c: Config, t: Timing, s: State, items: seq<Item>, pos: nat, d: nat) returns (s': State)
    requires Lone(c, s, items, pos, Publishing) && pos < |items| && d <= t.publishTimeout
    ensures Leads(c, t, s, [Tick(d), End(0, Success)], s') && Lone(c, s', items, pos, Returned(Success))
    ensures Gentle(s, s') && s'.rows == s.rows && s'.now == s.now + d
  {
    Wait(c, t, s, items, pos, Publishing, d);
    s' := WaitThen(c, s, d, End(0, Success));
    TwoSteps(c, t, s, Tick(d), End(0, Success));
    StepSafe(c, Apply(c, s, Tick(d)), End(0, Success));
  }

  /** The lease is live, so the mark hits its row and is acknowledged. */
  lemma WaitMark(c: Config, t: Timing, s: State, items: seq<Item>, pos: nat, d: nat) returns (s': State)
    requires Lone(c, s, items, pos, Returned(Success)) && pos < |items| && d <= t.markTime
    requires s.now + d <= items[pos].lockedUntil
    ensures Leads(c, t, s, [Tick(d), Mark(0, Acked, s.now + d, 0)], s') && Lone(c, s', items, pos + 1, Ready)
    ensures Gentle(s, s') && s'.now == s.now + d
  {
    Wait(c, t, s, items, pos, Returned(Success), d);
    var a := Mark(0, Acked, s.now + d, 0);
    var s1 := Apply(c, s, Tick(d));
    assert Holds(s1, 0, pos);
    assert UpToDate(s1, items[pos]);
    s' := WaitThen(c, s, d, a);
    TwoSteps(c, t, s, Tick(d), a);
    StepSafe(c, s1, a);
  }

  function Least(a: nat, b: nat): nat {
    if a < b then a else b
  }

  /** One event is published and marked in exactly e units of time. */
  lemma PassEvent(c: Config, t: Timing, s: State, items: seq<Item>, pos: nat, e: nat)
    returns (acts: seq<Action>, s': State)
    requires Lone(c, s, items, pos, Ready) && pos < |items| && e <= t.PerEvent()
    requires s.now + e < items[pos].lockedUntil
    ensures Leads(c, t, s, acts, s') && Lone(c, s', items, pos + 1, Ready) && Gentle(s, s') && s'.now == s.now + e
  {
    var d1 := Least(e, t.gap);
    var d2 := Least(e - d1, t.gap);
    var d3 := Least(e - d1 - d2, t.publishTimeout);
    var d4 := e - d1 - d2 - d3;
    var s1 := WaitCheck(c, t, s, items, pos, d1);
    var s2 := WaitStart(c, t, s1, items, pos, d2);
    LeadsThen(c, t, s, [Tick(d1), Check(0)], s1, [Tick(d2), Start(0)], s2);
    acts := [Tick(d1), Check(0)] + [Tick(d2), Start(0)];
    var s3 := WaitEnd(c, t, s2, items, pos, d3);
    LeadsThen(c, t, s, acts, s2, [Tick(d3), End(0, Success)], s3);
    acts := acts + [Tick(d3), End(0, Success)];
    s' := WaitMark(c, t, s3, items, pos, d4);
    LeadsThen(c, t, s, acts, s3, [Tick(d4), Mark(0, Acked, s3.now + d4, 0)], s');
    acts := acts + [Tick(d4), Mark(0, Acked, s3.now + d4, 0)];
  }

  lemma Peel(a: int, b: nat)
    requires 1 <= a
    ensures a * b == (a - 1) * b + b && 0 <= (a - 1) * b
  {
  }

  /** Worker 0 reaches events[k] at any chosen time its deadlines allow, as long as the lease is live. */
  lemma {:induction false} ReachEvent(c: Config, t: Timing, s: State, items: seq<Item>, pos: nat, k: nat, target: nat,
                                      lease: nat)
    returns (acts: seq<Action>, s': State)
    requires Lone(c, s, items, pos, Ready) && pos <= k < |items|
    requires forall i | 0 <= i < |items| :: items[i].lockedUntil == lease
    requires 0 <= s.now <= target < lease && target <= s.now + (k - pos) * t.PerEvent()
    ensures Leads(c, t, s, acts, s') && Lone(c, s', items, k, Ready) && Gentle(s, s') && s'.now == target
    decreases k - pos
  {
    if pos == k {
      acts, s' := [], s;
    } else {
      var e := Least(target - s.now, t.PerEvent());
      var first, s1 := PassEvent(c, t, s, items, pos, e);
      Peel(k - pos, t.PerEvent());
      var rest;
      rest, s' := ReachEvent(c, t, s1, items, pos + 1, k, target, lease);
      LeadsThen(c, t, s, first, s1, rest, s');
      acts := first + rest;
    }
  }

  // ---------------------------------------------------------------------------------------------------------
  // Building the run
  // ---------------------------------------------------------------------------------------------------------

  /** m pending rows, all due at time 0, and nobody at work. */
  ghost predicate Seeded(c: Config, s: State, m: nat) {
    && Safe(c, s) && s.now == 0 && s.issued == map[] && 2 <= |s.workers|
    && (forall v | 0 <= v < |s.workers| :: s.workers[v].Idle?)
    && (forall id: nat :: id in s.rows <==> id < m)
    && (forall id: nat | id < m :: s.rows[id] == NewRow(5, 0, 0))
  }

  lemma {:induction false} Seed(c: Config, t: Timing, n: nat, m: nat) returns (acts: seq<Action>, s: State)
    requires 2 <= n
    ensures Leads(c, t, Init(0, n), acts, s) && Seeded(c, s, m) && |s.workers| == n
  {
    if m == 0 {
      acts, s := [], Init(0, n);
    } else {
      var acts0, s0 := Seed(c, t, n, m - 1);
      var a := Insert(m - 1, 5, 0, 0);
      s := Apply(c, s0, a);
      StepSafe(c, s0, a);
      OneStep(c, t, s0, a);
      LeadsThen(c, t, Init(0, n), acts0, s0, [a], s);
      acts := acts0 + [a];
    }
  }

  lemma {:induction false} GrantAllFresh(c: Config, s: State, w: nat, at: Time, picks: seq<Pick>, bound: Token)
    requires GrantableAll(c, s, w, at, picks) && IsBusy(s, w)
    requires forall tok | tok in s.issued :: tok <= bound
    requires forall i | 0 <= i < |picks| :: picks[i].token <= bound
    ensures var s' := GrantAll(c, s, w, at, picks);
            && (forall tok | tok in s'.issued :: tok <= bound)
            && (forall id | id in s.rows :: id in s'.rows && s'.rows[id].nextRetryAt == s.rows[id].nextRetryAt)
    decreases |picks|
  {
    if picks != [] {
      GrantAllFresh(c, Grant(c, s, w, at, picks[0]), w, at, picks[1..], bound);
    }
  }

  function FirstRows(m: nat): seq<Pick> {
    seq(m, i requires 0 <= i < m => Pick(i, i + 1))
  }

  lemma ReceiveGrants(c: Config, s: State, m: nat)
    requires Safe(c, s) && 1 <= m <= c.limit && 2 <= |s.workers| && s.workers[0].Idle? && 0 <= s.now
             && s.issued == map[]
    requires forall id: nat | id < m :: id in s.rows && s.rows[id] == NewRow(5, 0, 0)
    ensures Enabled(c, s, Fetch(0, 0, FirstRows(m)))
    ensures var s' := Apply(c, s, Fetch(0, 0, FirstRows(m)));
            && IsBusy(s', 0) && |s'.workers[0].items| == m && s'.workers[0].items[m - 1].id == m - 1
            && s'.workers == s.workers[0 := Busy(0, s'.workers[0].items, 0, Ready, s.now, 0, 0)] && s'.now == s.now
            && (forall tok | tok in s'.issued :: tok <= m)
            && m - 1 in s'.rows && s'.rows[m - 1].nextRetryAt == 0
  {
    var picks, s0 := FirstRows(m), Opened(s, 0, 0);
    Batches.EligibleGrantable(c, s0, 0, 0, picks);
    GrantAllFresh(c, s0, 0, 0, picks, m);
    Batches.GrantAllEffect(c, s0, 0, 0, picks);
    assert ItemIds(GrantAll(c, s0, 0, 0, picks).workers[0].items)[m - 1] == Batches.PickIds(picks)[m - 1];
  }

  /** At time f worker 0 receives the first m rows, leased from time 0. */
  lemma Receive(c: Config, t: Timing, s: State, m: nat, f: nat) returns (acts: seq<Action>, s': State)
    requires Seeded(c, s, m) && 1 <= m <= c.limit && f <= t.fetchTime
    ensures Leads(c, t, s, acts, s') && |s'.workers| == |s.workers|
    ensures IsBusy(s', 0) && s'.now == f && Lone(c, s', s'.workers[0].items, 0, Ready)
    ensures |s'.workers[0].items| == m && s'.workers[0].items[m - 1].id == m - 1
    ensures forall i | 0 <= i < m :: s'.workers[0].items[i].lockedUntil == c.lease
    ensures forall tok | tok in s'.issued :: tok <= m
    ensures m - 1 in s'.rows && s'.rows[m - 1].nextRetryAt == 0
  {
    var s1, a := Apply(c, s, Tick(f)), Fetch(0, 0, FirstRows(m));
    StepSafe(c, s, Tick(f));
    ReceiveGrants(c, s1, m);
    s' := Apply(c, s1, a);
    StepSafe(c, s1, a);
    TwoSteps(c, t, s, Tick(f), a);
    acts := [Tick(f), a];
    LeasedTogether(c, s');
  }

  lemma LeasedTogether(c: Config, s: State)
    requires Safe(c, s) && IsBusy(s, 0)
    ensures forall i | 0 <= i < |s.workers[0].items| ::
              s.workers[0].items[i].lockedUntil == s.workers[0].fetchedAt + c.lease
  {
    assert WorkerOk(c, s, s.workers[0]);
    assert forall i | 0 <= i < |s.workers[0].items| :: ItemOk(c, s, s.workers[0], s.workers[0].items[i]);
  }

  /** Worker 0 publishes past its lease; worker 1 leases the row again and publishes too. */
  lemma Overtake(c: Config, t: Timing, s: State, items: seq<Item>, k: nat, x: nat, bound: Token)
    returns (acts: seq<Action>, s': State)
    requires Lone(c, s, items, k, Ready) && k < |items| && items[k].lockedUntil == c.lease
    requires 0 <= s.now <= x < c.lease && x - s.now <= t.gap && c.lease < x + t.gap + t.publishTimeout
    requires 1 <= c.limit && 1 <= c.lease
    requires forall tok | tok in s.issued :: tok <= bound
    requires items[k].id in s.rows && s.rows[items[k].id].nextRetryAt <= 0
    ensures Leads(c, t, s, acts, s') && Overlap(s', 0, 1, items[k].id)
  {
    var id := items[k].id;
    var s1 := WaitCheck(c, t, s, items, k, x - s.now);
    assert Holds(s1, 0, k);
    assert UpToDate(s1, items[k]);
    var s2 := WaitStart(c, t, s1, items, k, t.gap);
    LeadsThen(c, t, s, [Tick(x - s.now), Check(0)], s1, [Tick(t.gap), Start(0)], s2);
    acts := [Tick(x - s.now), Check(0)] + [Tick(t.gap), Start(0)];
    var d: nat := if c.lease + 1 <= s2.now then 0 else c.lease + 1 - s2.now;
    Wait(c, t, s2, items, k, Publishing, d);
    var s3 := Apply(c, s2, Tick(d));
    OneStep(c, t, s2, Tick(d));
    LeadsThen(c, t, s, acts, s2, [Tick(d)], s3);
    acts := acts + [Tick(d)];
    assert RowOk(c, s3, id, s3.rows[id]);
    var more;
    more, s' := Second(c, t, s3, items, k, bound);
    LeadsThen(c, t, s, acts, s3, more, s');
    acts := acts + more;
  }

  lemma Second(c: Config, t: Timing, s: State, items: seq<Item>, k: nat, bound: Token)
    returns (acts: seq<Action>, s': State)
    requires Safe(c, s) && 2 <= |s.workers| && s.workers[1].Idle? && 1 <= c.limit && 1 <= c.lease
    requires IsBusy(s, 0) && s.workers[0].items == items && s.workers[0].pos == k < |items|
             && s.workers[0].phase == Publishing
    requires forall tok | tok in s.issued :: tok <= bound
    requires items[k].id in s.rows && Eligible(s.rows[items[k].id], s.now)
    ensures Leads(c, t, s, acts, s') && Overlap(s', 0, 1, items[k].id)
  {
    var p := Pick(items[k].id, bound + 1);
    var a := Fetch(1, s.now, [p]);
    Batches.OneGrant(c, Opened(s, 1, s.now), 1, s.now, p);
    var s1 := Apply(c, s, a);
    OneStep(c, t, s, a);
    TwoSteps(c, t, s1, Check(1), Start(1));
    s' := Apply(c, Apply(c, s1, Check(1)), Start(1));
    LeadsThen(c, t, s, [a], s1, [Check(1), Start(1)], s');
    acts := [a] + [Check(1), Start(1)];
  }

  /** A timed run from the empty table that ends with two workers publishing one event. */
  ghost predicate OverlapRun(c: Config, t: Timing, n: nat, acts: seq<Action>, w1: nat, w2: nat, id: Id) {
    && TimedRun(c, t, Init(0, n), acts) && ValidRun(c, Init(0, n), acts)
    && Overlap(Exec(c, Init(0, n), acts), w1, w2, id)
  }

  /** The table is filled and worker 0 holds a full batch, received at time f. */
  lemma Prepare(c: Config, t: Timing, n: nat, f: nat) returns (acts: seq<Action>, s: State)
    requires 2 <= n && 1 <= c.limit && f <= t.fetchTime
    ensures Leads(c, t, Init(0, n), acts, s) && 2 <= |s.workers|
    ensures IsBusy(s, 0) && s.now == f && Lone(c, s, s.workers[0].items, 0, Ready)
    ensures |s.workers[0].items| == c.limit && s.workers[0].items[c.limit - 1].id == c.limit - 1
    ensures forall i | 0 <= i < c.limit :: s.workers[0].items[i].lockedUntil == c.lease
    ensures forall tok | tok in s.issued :: tok <= c.limit
    ensures c.limit - 1 in s.rows && s.rows[c.limit - 1].nextRetryAt == 0
  {
    var seed, s0 := Seed(c, t, n, c.limit);
    var more;
    more, s := Receive(c, t, s0, c.limit, f);
    LeadsThen(c, t, Init(0, n), seed, s0, more, s);
    acts := seed + more;
  }

  /** With k events before it taking at most `work` in all, the last event can be begun just before the lease ends. */
  lemma LateRun(c: Config, t: Timing, n: nat, k: nat, work: nat, x: nat, f: nat) returns (acts: seq<Action>)
    requires 2 <= n && c.limit == k + 1 && work == k * t.PerEvent()
    requires f == Least(t.fetchTime, x) && x < c.lease && x <= t.fetchTime + work + t.gap
    requires c.lease < x + t.gap + t.publishTimeout
    ensures OverlapRun(c, t, n, acts, 0, 1, k)
  {
    var a1, s1 := Prepare(c, t, n, f);
    var items := s1.workers[0].items;
    var target := Least(x, f + work);
    var a2, s2 := ReachEvent(c, t, s1, items, 0, k, target, c.lease);
    LeadsThen(c, t, Init(0, n), a1, s1, a2, s2);
    var a3, s3 := Overtake(c, t, s2, items, k, x, c.limit);
    LeadsThen(c, t, Init(0, n), a1 + a2, s2, a3, s3);
    acts := a1 + a2 + a3;
  }

  lemma OverlapIfTooLong(c: Config, t: Timing, n: nat) returns (acts: seq<Action>)
    requires 2 <= n && 1 <= c.limit && 1 <= c.lease && 2 <= t.gap + t.publishTimeout && !Fits(c, t)
    ensures OverlapRun(c, t, n, acts, 0, 1, c.limit - 1)
  {
    var k, per := c.limit - 1, t.PerEvent();
    var work: nat := k * per;
    assert c.lease < t.fetchTime + work + t.gap + t.gap + t.publishTimeout;
    var x := Least(t.fetchTime + work + t.gap, c.lease - 1);
    acts := LateRun(c, t, n, k, work, x, Least(t.fetchTime, x));
  }

  /**
   * For two or more workers: some timed run overlaps two publishes exactly when the batch does not fit in the lease.
   */
  lemma OverlapExactly(c: Config, t: Timing, n: nat)
    requires 2 <= n && 1 <= c.limit && 1 <= c.lease && 2 <= t.gap + t.publishTimeout
    ensures (exists acts, w1, w2, id :: OverlapRun(c, t, n, acts, w1, w2, id)) <==> !Fits(c, t)
  {
    if Fits(c, t) {
      forall acts, w1, w2, id ensures !OverlapRun(c, t, n, acts, w1, w2, id) {
        if TimedRun(c, t, Init(0, n), acts) {
          NoOverlapIfFits(c, t, 0, n, acts, w1, w2, id);
        }
      }
    } else {
      var acts := OverlapIfTooLong(c, t, n);
    }
  }

  const SECOND: nat := 1_000_000_000

  /**
   * The defaults: batches of 50, a publish timeout of 5 s and a 60 s lease. A full batch of slow publishes does not
   * fit.
   */
  lemma DefaultsCanOverlap(n: nat) returns (acts: seq<Action>)
    requires 2 <= n
    ensures OverlapRun(Config(60 * SECOND, 50, 60 * SECOND), Timing(5 * SECOND, 0, 0, 0), n, acts, 0, 1, 49)
  {
    acts := OverlapIfTooLong(Config(60 * SECOND, 50, 60 * SECOND), Timing(5 * SECOND, 0, 0, 0), n);
  }
}
