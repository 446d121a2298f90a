/**
 * Which rows a lease gets, under any interleaving: the oldest eligible ones, except those it passed over, and it passes
 * over a row only because another transaction had it locked or because the row was not eligible.
 */
module SkipOrder {
  import opened OutboxTypes
  import opened LeaseProtocol
  import opened Batches
  import opened SkipLocked

  /** The rows a lease left aside: skipped when their turn came, or not in its snapshot. */
  function PassedOver(cs: Server, w: nat): set<Id>
    requires Leasing(cs, w)
  {
    set id | id in cs.sys.rows && (id in cs.txns[w].skipped || id !in cs.txns[w].snapshot)
  }

  lemma CompleteHasAll(c: Config, s: State, t: Txn)
    requires t.Lease? && ScanOk(c, s, t) && PendingOk(c, s, t) && |t.pending| == |t.locked|
    ensures forall id :: id in PickIds(PendingPicks(t)) <==> id in t.locked
  {
    var ids := PickIds(PendingPicks(t));
    PickedIsLocked(c, s, t);
    assert forall i | 0 <= i < |ids| :: ids[i] in ids;
    SameIds(ids, t.locked);
  }

  /** A row that is neither locked nor passed over is one the scan did not come to, because the batch was full. */
  lemma NotVisited(c: Config, s: State, t: Txn, id: Id)
    requires t.Lease? && ScanOk(c, s, t) && ScanDone(c, t) && id in t.snapshot && id !in t.locked && id !in t.skipped
    ensures |t.locked| == c.limit
    ensures forall k | k in t.locked :: k in s.rows && id in s.rows && s.rows[k].createdAt <= s.rows[id].createdAt
  {
    var j :| 0 <= j < |t.snapshot| && t.snapshot[j] == id;
    assert t.pos <= j;
    forall k | k in t.locked ensures k in s.rows && s.rows[k].createdAt <= s.rows[id].createdAt {
      var i :| 0 <= i < t.pos && t.snapshot[i] == k;
    }
  }

  /** Whatever else was in flight, a commit leases an oldest batch of the rows it did not pass over. */
  lemma CommitIsOldest(c: Config, cs: Server, w: nat)
    requires ServerOk(c, cs) && Complete(c, cs, w)
    ensures OldestBatch(cs.sys.rows - PassedOver(cs, w), cs.txns[w].at, c.limit, PickIds(PendingPicks(cs.txns[w])))
  {
    hide Safe, Eligible;
    var t, rows, ids := cs.txns[w], cs.sys.rows - PassedOver(cs, w), PickIds(PendingPicks(cs.txns[w]));
    assert TxnOk(c, cs.sys, w, t);
    CompleteHasAll(c, cs.sys, t);
    forall i | 0 <= i < |ids| ensures ids[i] in rows && Eligible(rows[ids[i]], t.at) {
      assert ids[i] in ids;
      assert ids[i] in t.snapshot[..t.pos];
    }
    forall id | id in rows && id !in ids
      ensures |ids| == c.limit && forall i | 0 <= i < |ids| :: rows[ids[i]].createdAt <= rows[id].createdAt
    {
      NotVisited(c, cs.sys, t, id);
      assert forall i | 0 <= i < |ids| :: ids[i] in ids;
    }
  }

  // ---------------------------------------------------------------------------------------------------------
  // Why a row is passed over
  // ---------------------------------------------------------------------------------------------------------

  /** A lease with this statement time could not have the row now. */
  ghost predicate Unavailable(cs: Server, w: nat, id: Id, at: Time) {
    && at <= cs.sys.now
    && (LockedByOther(cs, w, id) || id !in cs.sys.rows || !Eligible(cs.sys.rows[id], at))
  }

  /** After the first i steps of the run the row was unavailable. */
  ghost predicate UnavailableAfter(c: Config, cs: Server, steps: seq<Step>, i: nat, w: nat, id: Id, at: Time) {
    i <= |steps| && ServerRun(c, cs, steps[..i]) && Unavailable(ServerExec(c, cs, steps[..i]), w, id, at)
  }

  /** After the first j steps worker w had this lease open: same statement time, same snapshot. */
  ghost predicate OpenAfter(c: Config, cs: Server, steps: seq<Step>, j: nat, w: nat, t: Txn)
    requires t.Lease?
  {
    && j <= |steps| && ServerRun(c, cs, steps[..j])
    && (var mid := ServerExec(c, cs, steps[..j]);
        Leasing(mid, w) && mid.txns[w].at == t.at && mid.txns[w].snapshot == t.snapshot)
  }

  /** A step in which worker w's lease decides about rows: it takes its snapshot, or it visits a row. */
  predicate Looks(st: Step, w: nat) {
    (st.Begin? || st.Visit?) && st.w == w
  }

  /**
   * Step i is where lease t of worker w decided, the row was unavailable to it at that moment, and it has been open
   * after every step since.
   */
  ghost predicate CausedAt(c: Config, cs: Server, steps: seq<Step>, i: nat, w: nat, id: Id, t: Txn)
    requires t.Lease?
  {
    && i < |steps| && Looks(steps[i], w) && UnavailableAfter(c, cs, steps, i, w, id, t.at)
    && forall j | i < j <= |steps| :: OpenAfter(c, cs, steps, j, w, t)
  }

  lemma {:induction false} RunFront(c: Config, cs: Server, steps: seq<Step>)
    requires steps != [] && ServerRun(c, cs, steps)
    ensures var front, st := steps[..|steps| - 1], steps[|steps| - 1];
            && ServerRun(c, cs, front) && StepEnabled(c, ServerExec(c, cs, front), st)
            && ServerExec(c, cs, steps) == StepTo(c, ServerExec(c, cs, front), st)
    decreases |steps|
  {
    hide StepEnabled, StepTo;
    if |steps| == 1 {
      assert steps[..0] == [] && steps[1..] == [];
    } else {
      RunFront(c, StepTo(c, cs, steps[0]), steps[1..]);
      assert steps[1..][..|steps| - 2] == steps[..|steps| - 1][1..];
    }
  }

  /** A lease that is open after a step was open before it, and the step added at most one skipped row, for cause. */
  lemma LeaseBefore(c: Config, cs: Server, st: Step, w: nat)
    requires ServerOk(c, cs) && StepEnabled(c, cs, st) && Leasing(StepTo(c, cs, st), w) && !(st.Begin? && st.w == w)
    ensures Leasing(cs, w)
    ensures var t, t' := cs.txns[w], StepTo(c, cs, st).txns[w];
            && t'.at == t.at && t'.snapshot == t.snapshot
            && (forall id | id in t'.skipped && id !in t.skipped :: st == Visit(w) && Unavailable(cs, w, id, t.at))
  {
    hide Safe;
    assert TxnOk(c, cs.sys, w, cs.txns[w]);
  }

  /**
   * In every run, each row a lease has passed over was unavailable to it when it took its snapshot or when it came to
   * that row.
   */
  lemma {:induction false} PassedOverForCause(c: Config, cs: Server, steps: seq<Step>, w: nat, id: Id)
    requires ServerOk(c, cs) && w < |cs.txns| && cs.txns[w].NoTxn? && ServerRun(c, cs, steps)
    requires var end := ServerExec(c, cs, steps); Leasing(end, w) && id in PassedOver(end, w)
    ensures exists i: nat :: CausedAt(c, cs, steps, i, w, id, ServerExec(c, cs, steps).txns[w])
  {
    SkippedForCause(c, cs, steps, w, id);
  }

  lemma {:induction false} SkippedForCause(c: Config, cs: Server, steps: seq<Step>, w: nat, id: Id)
    requires ServerOk(c, cs) && w < |cs.txns| && cs.txns[w].NoTxn? && ServerRun(c, cs, steps)
    requires Leasing(ServerExec(c, cs, steps), w)
    requires var t := ServerExec(c, cs, steps).txns[w]; id in t.skipped || id !in t.snapshot
    ensures exists i: nat :: CausedAt(c, cs, steps, i, w, id, ServerExec(c, cs, steps).txns[w])
    decreases |steps|
  {
    hide ServerOk, StepEnabled, StepTo, Unavailable, CausedAt;
    if steps != [] {
      var n := |steps| - 1;
      var front, st := steps[..n], steps[n];
      RunFront(c, cs, steps);
      LockingRefinesAtomic(c, cs, front);
      var before, t' := ServerExec(c, cs, front), ServerExec(c, cs, steps).txns[w];
      if st.Begin? && st.w == w {
        BeganWithAll(c, before, w, st.snapshot, id);
        CauseNow(c, cs, steps, w, id, t');
      } else {
        LeaseBefore(c, before, st, w);
        var t := before.txns[w];
        if id in t.skipped || id !in t.snapshot {
          SkippedForCause(c, cs, front, w, id);
          var i: nat :| CausedAt(c, cs, front, i, w, id, t);
          CauseStays(c, cs, steps, i, w, id, t, t');
        } else {
          CauseNow(c, cs, steps, w, id, t');
        }
      }
    }
  }

  /** The cause is found in the state before the last step. */
  lemma CauseNow(c: Config, cs: Server, steps: seq<Step>, w: nat, id: Id, t: Txn)
    requires steps != [] && ServerRun(c, cs, steps) && ServerRun(c, cs, steps[..|steps| - 1]) && t.Lease?
    requires Looks(steps[|steps| - 1], w) && Unavailable(ServerExec(c, cs, steps[..|steps| - 1]), w, id, t.at)
    requires var end := ServerExec(c, cs, steps); Leasing(end, w) && end.txns[w] == t
    ensures CausedAt(c, cs, steps, |steps| - 1, w, id, t)
  {
    hide Unavailable;
    assert steps[..|steps|] == steps;
  }

  /** A cause found earlier still is one when the lease is still open. */
  lemma CauseStays(c: Config, cs: Server, steps: seq<Step>, i: nat, w: nat, id: Id, t: Txn, t': Txn)
    requires steps != [] && ServerRun(c, cs, steps) && t.Lease? && t'.Lease?
    requires CausedAt(c, cs, steps[..|steps| - 1], i, w, id, t) && t'.at == t.at && t'.snapshot == t.snapshot
    requires var end := ServerExec(c, cs, steps); Leasing(end, w) && end.txns[w] == t'
    ensures CausedAt(c, cs, steps, i, w, id, t')
  {
    hide Unavailable;
    var n := |steps| - 1;
    var front := steps[..n];
    assert steps[..|steps|] == steps;
    assert front[..i] == steps[..i];
    forall j | i < j <= |steps| ensures OpenAfter(c, cs, steps, j, w, t') {
      if j <= n {
        assert OpenAfter(c, cs, front, j, w, t);
        assert front[..j] == steps[..j];
      }
    }
  }

  lemma BeganWithAll(c: Config, cs: Server, w: nat, snapshot: seq<Id>, id: Id)
    requires StepEnabled(c, cs, Begin(w, snapshot))
    ensures StepTo(c, cs, Begin(w, snapshot)).txns[w] == Lease(cs.sys.now, snapshot, 0, [], [], [])
    ensures id !in snapshot ==> Unavailable(cs, w, id, cs.sys.now)
  {
  }

  /**
   * The whole story of a commit in any run: an oldest batch of what the lease did not pass over, and it passed over for
   * cause.
   */
  lemma EveryCommitIsOldest(c: Config, start: Time, n: nat, steps: seq<Step>, w: nat)
    requires ServerRun(c, ServerInit(start, n), steps)
    requires StepEnabled(c, ServerExec(c, ServerInit(start, n), steps), Commit(w))
    ensures var cs := ServerExec(c, ServerInit(start, n), steps);
            var t := cs.txns[w];
            && OldestBatch(cs.sys.rows - PassedOver(cs, w), t.at, c.limit, PickIds(PendingPicks(t)))
            && forall id | id in PassedOver(cs, w) ::
                 exists i: nat :: CausedAt(c, ServerInit(start, n), steps, i, w, id, t)
  {
    hide ServerOk, CausedAt, OldestBatch;
    var init := ServerInit(start, n);
    InitOk(c, start, n);
    LockingRefinesAtomic(c, init, steps);
    var cs := ServerExec(c, init, steps);
    CommitIsOldest(c, cs, w);
    SameWorkers(c, init, steps);
    forall id | id in PassedOver(cs, w)
      ensures exists i: nat :: CausedAt(c, init, steps, i, w, id, cs.txns[w])
    {
      PassedOverForCause(c, init, steps, w, id);
    }
  }

  lemma {:induction false} SameWorkers(c: Config, cs: Server, steps: seq<Step>)
    requires ServerRun(c, cs, steps)
    ensures |ServerExec(c, cs, steps).txns| == |cs.txns|
    decreases |steps|
  {
    if steps != [] {
      SameWorkers(c, StepTo(c, cs, steps[0]), steps[1..]);
    }
  }

  // ---------------------------------------------------------------------------------------------------------
  // A fetch nobody interferes with passes over nothing
  // ---------------------------------------------------------------------------------------------------------

  ghost predicate Alone(cs: Server, w: nat) {
    forall v | 0 <= v < |cs.txns| && v != w :: cs.txns[v].NoTxn?
  }

  lemma {:induction false} RunThen(c: Config, cs: Server, steps: seq<Step>, st: Step)
    requires ServerRun(c, cs, steps) && StepEnabled(c, ServerExec(c, cs, steps), st)
    ensures ServerRun(c, cs, steps + [st])
    ensures ServerExec(c, cs, steps + [st]) == StepTo(c, ServerExec(c, cs, steps), st)
    decreases |steps|
  {
    hide StepEnabled, StepTo;
    if steps == [] {
      assert [st][1..] == [];
    } else {
      assert (steps + [st])[1..] == steps[1..] + [st];
      RunThen(c, StepTo(c, cs, steps[0]), steps[1..], st);
    }
  }

  /** The first k visits of an undisturbed scan. */
  function Visits(w: nat, snapshot: seq<Id>, k: nat): seq<Step> {
    if k == 0 then [Begin(w, snapshot)] else Visits(w, snapshot, k - 1) + [Visit(w)]
  }

  /** And the writes that follow. */
  function Writes(w: nat, snapshot: seq<Id>, k: nat, picks: seq<Pick>): seq<Step>
    decreases |picks|
  {
    if picks == [] then Visits(w, snapshot, k)
    else Writes(w, snapshot, k, picks[..|picks| - 1]) + [UpdateRow(w, picks[|picks| - 1])]
  }

  lemma NextVisit(c: Config, cs: Server, w: nat, snapshot: seq<Id>, k: nat)
    requires StepEnabled(c, cs, Begin(w, snapshot)) && Alone(cs, w) && 0 < k <= |snapshot| && k <= c.limit
    ensures var t, t' := Lease(cs.sys.now, snapshot, k - 1, snapshot[..k - 1], [], []),
                         Lease(cs.sys.now, snapshot, k, snapshot[..k], [], []);
            var at := cs.(txns := cs.txns[w := t]);
            StepEnabled(c, at, Visit(w)) && StepTo(c, at, Visit(w)) == cs.(txns := cs.txns[w := t'])
  {
    var at := cs.(txns := cs.txns[w := Lease(cs.sys.now, snapshot, k - 1, snapshot[..k - 1], [], [])]);
    assert !LockedByOther(at, w, snapshot[k - 1]);
    assert snapshot[..k - 1] + [snapshot[k - 1]] == snapshot[..k];
  }

  lemma {:induction false} UndisturbedScan(c: Config, cs: Server, w: nat, snapshot: seq<Id>, k: nat)
    requires StepEnabled(c, cs, Begin(w, snapshot)) && Alone(cs, w) && k <= |snapshot| && k <= c.limit
    ensures ServerRun(c, cs, Visits(w, snapshot, k))
    ensures ServerExec(c, cs, Visits(w, snapshot, k))
            == cs.(txns := cs.txns[w := Lease(cs.sys.now, snapshot, k, snapshot[..k], [], [])])
  {
    if k == 0 {
      RunThen(c, cs, [], Begin(w, snapshot));
    } else {
      UndisturbedScan(c, cs, w, snapshot, k - 1);
      NextVisit(c, cs, w, snapshot, k);
      hide StepEnabled, StepTo;
      RunThen(c, cs, Visits(w, snapshot, k - 1), Visit(w));
    }
  }

  function Versions(c: Config, s: State, picks: seq<Pick>): seq<Version>
    requires forall i | 0 <= i < |picks| :: picks[i].id in s.rows
  {
    seq(|picks|, i requires 0 <= i < |picks| =>
          Version(picks[i], LeasedRow(s.rows[picks[i].id], picks[i].token, s.now + c.lease)))
  }

  /** What RETURNING may hand back for these locked rows: each under a new token, in any order. */
  predicate Returns(s: State, locked: seq<Id>, picks: seq<Pick>) {
    && |picks| == |locked|
    && DistinctIds(PickIds(picks))
    && (forall i | 0 <= i < |picks| :: picks[i].id in locked && picks[i].id in s.rows)
    && FreshTokens(s, picks)
  }

  /** Worker w alone, with the first k rows of its snapshot locked and the picks so far written. */
  function Written(c: Config, cs: Server, w: nat, snapshot: seq<Id>, k: nat, picks: seq<Pick>): Server
    requires w < |cs.txns| && k <= |snapshot| && forall i | 0 <= i < |picks| :: picks[i].id in cs.sys.rows
  {
    cs.(txns := cs.txns[w := Lease(cs.sys.now, snapshot, k, snapshot[..k], [], Versions(c, cs.sys, picks))])
  }

  lemma NextWrite(c: Config, cs: Server, w: nat, snapshot: seq<Id>, k: nat, picks: seq<Pick>, j: nat)
    requires Alone(cs, w) && w < |cs.txns| && 0 < j <= |picks| && k <= |snapshot| && (k == |snapshot| || k == c.limit)
    requires Returns(cs.sys, snapshot[..k], picks)
    ensures var at := Written(c, cs, w, snapshot, k, picks[..j - 1]);
            && StepEnabled(c, at, UpdateRow(w, picks[j - 1]))
            && StepTo(c, at, UpdateRow(w, picks[j - 1])) == Written(c, cs, w, snapshot, k, picks[..j])
  {
    var at, p := Written(c, cs, w, snapshot, k, picks[..j - 1]), picks[j - 1];
    forall i | 0 <= i < j - 1 ensures picks[i].id != p.id {
      assert PickIds(picks)[i] != PickIds(picks)[j - 1];
    }
    assert Versions(c, cs.sys, picks[..j])
        == Versions(c, cs.sys, picks[..j - 1])
           + [Version(p, LeasedRow(cs.sys.rows[p.id], p.token, cs.sys.now + c.lease))];
    assert at.txns[w := Updated(c, at, w, p)] == Written(c, cs, w, snapshot, k, picks[..j]).txns;
  }

  lemma {:induction false} UndisturbedWrites(c: Config, cs: Server, w: nat, snapshot: seq<Id>, k: nat,
                                             picks: seq<Pick>, j: nat)
    requires StepEnabled(c, cs, Begin(w, snapshot)) && Alone(cs, w)
    requires k == if |snapshot| <= c.limit then |snapshot| else c.limit
    requires Returns(cs.sys, snapshot[..k], picks) && j <= |picks|
    ensures w < |cs.txns| && forall i | 0 <= i < |picks| :: picks[i].id in cs.sys.rows
    ensures ServerRun(c, cs, Writes(w, snapshot, k, picks[..j]))
    ensures ServerExec(c, cs, Writes(w, snapshot, k, picks[..j])) == Written(c, cs, w, snapshot, k, picks[..j])
  {
    hide StepTo, Alone, Eligible, OldestFirst, FreshTokens, ServerExec, ServerRun;
    if j == 0 {
      UndisturbedScan(c, cs, w, snapshot, k);
      assert Versions(c, cs.sys, picks[..0]) == [];
    } else {
      UndisturbedWrites(c, cs, w, snapshot, k, picks, j - 1);
      assert picks[..j][..j - 1] == picks[..j - 1];
      NextWrite(c, cs, w, snapshot, k, picks, j);
      hide StepEnabled;
      RunThen(c, cs, Writes(w, snapshot, k, picks[..j - 1]), UpdateRow(w, picks[j - 1]));
    }
  }

  /** An undisturbed fetch can run to its commit, and then leases an oldest batch of the whole table, in any order. */
  lemma UndisturbedFetch(c: Config, cs: Server, w: nat, snapshot: seq<Id>, k: nat, picks: seq<Pick>)
    requires ServerOk(c, cs) && StepEnabled(c, cs, Begin(w, snapshot)) && Alone(cs, w)
    requires k == if |snapshot| <= c.limit then |snapshot| else c.limit
    requires Returns(cs.sys, snapshot[..k], picks)
    ensures var steps := Writes(w, snapshot, k, picks) + [Commit(w)];
            var a := Fetch(w, cs.sys.now, picks);
            && ServerRun(c, cs, steps)
            && Enabled(c, cs.sys, a) && ServerExec(c, cs, steps).sys == Apply(c, cs.sys, a)
            && OldestBatch(cs.sys.rows, cs.sys.now, c.limit, PickIds(picks))
  {
    hide StepTo, Alone, Eligible, OldestFirst, OldestBatch, ServerExec, ServerRun, Safe, TxnOk, Apply, Enabled,
         Abstract;
    var writes := Writes(w, snapshot, k, picks);
    UndisturbedWrites(c, cs, w, snapshot, k, picks, |picks|);
    assert picks[..|picks|] == picks;
    LockingRefinesAtomic(c, cs, writes);
    var ready := ServerExec(c, cs, writes);
    assert ready == Written(c, cs, w, snapshot, k, picks);
    assert PendingPicks(ready.txns[w]) == picks;
    CommitIsFetch(c, ready, w);
    RunThen(c, cs, writes, Commit(w));
    OldestPrefix(cs.sys.rows, cs.sys.now, c.limit, snapshot, k, PickIds(picks));
  }
}
