/** Batches of rows: the oldest-first selection of the lease query, and when a batch can be leased in one statement. */
module Batches {
  import opened OutboxTypes
  import opened LeaseProtocol

  predicate DistinctIds(ids: seq<Id>) {
    forall i, j :: 0 <= i < j < |ids| ==> ids[i] != ids[j]
  }

  /** ORDER BY created_at over the rows the WHERE clause lets through; ties in any order. */
  ghost predicate OldestFirst(rows: map<Id, Row>, at: Time, ids: seq<Id>) {
    && DistinctIds(ids)
    && (forall i | 0 <= i < |ids| :: ids[i] in rows && Eligible(rows[ids[i]], at))
    && (forall id | id in rows && Eligible(rows[id], at) :: id in ids)
    && (forall i, j | 0 <= i < j < |ids| :: rows[ids[i]].createdAt <= rows[ids[j]].createdAt)
  }

  /** What LIMIT leaves of it, in any order: an eligible row is only left out of a full batch of rows no younger. */
  predicate OldestBatch(rows: map<Id, Row>, at: Time, limit: nat, ids: seq<Id>) {
    && DistinctIds(ids) && |ids| <= limit
    && (forall i | 0 <= i < |ids| :: ids[i] in rows && Eligible(rows[ids[i]], at))
    && (forall id, i | id in rows && Eligible(rows[id], at) && id !in ids && 0 <= i < |ids| ::
          rows[ids[i]].createdAt <= rows[id].createdAt)
    && (forall id | id in rows && Eligible(rows[id], at) && id !in ids :: |ids| == limit)
  }

  function PickIds(picks: seq<Pick>): seq<Id> {
    seq(|picks|, i requires 0 <= i < |picks| => picks[i].id)
  }

  predicate FreshTokens(s: State, picks: seq<Pick>) {
    && (forall i | 0 <= i < |picks| :: picks[i].token != NIL_TOKEN && picks[i].token !in s.issued)
    && (forall i, j | 0 <= i < j < |picks| :: picks[i].token != picks[j].token)
  }

  /** Rows that are all eligible, distinct and given fresh tokens can be leased in one statement. */
  lemma {:induction false} EligibleGrantable(c: Config, s: State, w: nat, at: Time, picks: seq<Pick>)
    requires IsBusy(s, w) && |s.workers[w].items| + |picks| <= c.limit
    requires forall i | 0 <= i < |picks| :: picks[i].id in s.rows && Eligible(s.rows[picks[i].id], at)
    requires forall i, j | 0 <= i < j < |picks| :: picks[i].id != picks[j].id
    requires FreshTokens(s, picks)
    ensures GrantableAll(c, s, w, at, picks)
    decreases |picks|
  {
    if picks != [] {
      EligibleGrantable(c, Grant(c, s, w, at, picks[0]), w, at, picks[1..]);
    }
  }

  lemma OneGrant(c: Config, s: State, w: nat, at: Time, p: Pick)
    requires Grantable(c, s, w, at, p)
    ensures GrantableAll(c, s, w, at, [p]) && GrantAll(c, s, w, at, [p]) == Grant(c, s, w, at, p)
  {
    var g := Grant(c, s, w, at, p);
    assert [p][1..] == [];
    assert GrantableAll(c, g, w, at, []) && GrantAll(c, g, w, at, []) == g;
  }

  /**
   * One lease statement: the clock and the other workers stay, worker w receives the picked rows in their order, and
   * the log goes on with nothing but leases.
   */
  lemma {:induction false} GrantAllEffect(c: Config, s: State, w: nat, at: Time, picks: seq<Pick>)
    requires GrantableAll(c, s, w, at, picks) && IsBusy(s, w)
    ensures var s' := GrantAll(c, s, w, at, picks);
            && s'.now == s.now && s'.rows.Keys == s.rows.Keys && |s'.workers| == |s.workers| && IsBusy(s', w)
            && s'.workers == s.workers[w := s.workers[w].(items := s'.workers[w].items)]
            && s.workers[w].items <= s'.workers[w].items
            && ItemIds(s'.workers[w].items) == ItemIds(s.workers[w].items) + PickIds(picks)
            && (forall i | |s.workers[w].items| <= i < |s'.workers[w].items| ::
                  s'.workers[w].items[i].token !in s.issued)
            && s.log <= s'.log && (forall k | |s.log| <= k < |s'.log| :: s'.log[k].LeaseGranted?)
    decreases |picks|
  {
    hide Eligible, LeasedRow;
    if picks != [] {
      GrantAllEffect(c, Grant(c, s, w, at, picks[0]), w, at, picks[1..]);
      assert PickIds(picks) == [picks[0].id] + PickIds(picks[1..]);
    }
  }

  /** The rows agree but in the columns the lease query sets. */
  predicate SameButLease(r: Row, r': Row) {
    r' == r.(status := r'.status, lockedUntil := r'.lockedUntil, leaseToken := r'.leaseToken)
  }

  /** A lease touches the rows it picks only, and nothing but their lease. */
  lemma {:induction false} GrantAllFrame(c: Config, s: State, w: nat, at: Time, picks: seq<Pick>, id: Id)
    requires GrantableAll(c, s, w, at, picks) && id in s.rows
    ensures var s' := GrantAll(c, s, w, at, picks);
            && id in s'.rows && SameButLease(s.rows[id], s'.rows[id])
            && (id !in PickIds(picks) ==> s'.rows[id] == s.rows[id])
    decreases |picks|
  {
    if picks != [] {
      GrantAllFrame(c, Grant(c, s, w, at, picks[0]), w, at, picks[1..], id);
      assert PickIds(picks) == [picks[0].id] + PickIds(picks[1..]);
    }
  }

  function IdSet(ids: seq<Id>): set<Id> {
    set id | id in ids
  }

  lemma {:induction false} DistinctSize(ids: seq<Id>)
    requires DistinctIds(ids)
    ensures |IdSet(ids)| == |ids|
  {
    if |ids| > 0 {
      var n := |ids| - 1;
      DistinctSize(ids[..n]);
      assert ids == ids[..n] + [ids[n]];
      assert IdSet(ids) == IdSet(ids[..n]) + {ids[n]};
      assert ids[n] !in IdSet(ids[..n]);
    }
  }

  /** As many distinct ids as the list has: all of it. */
  lemma SameIds(ids: seq<Id>, list: seq<Id>)
    requires DistinctIds(ids) && DistinctIds(list) && |ids| == |list|
    requires forall i | 0 <= i < |ids| :: ids[i] in list
    ensures forall id | id in list :: id in ids
  {
    DistinctSize(ids);
    DistinctSize(list);
    if IdSet(ids) < IdSet(list) {
      SubsetSize(IdSet(ids), IdSet(list));
    }
    forall id | id in list ensures id in ids {
      assert id in IdSet(list);
      assert id in IdSet(ids);
    }
  }

  lemma PrefixHas(todo: seq<Id>, k: nat, j: nat)
    requires j < |todo| && k <= |todo|
    ensures j < k || k == |todo| ==> todo[j] in todo[..k]
  {
    assert j < k ==> todo[..k][j] == todo[j];
  }

  lemma SubsetSize(a: set<Id>, b: set<Id>)
    requires a < b
    ensures |a| < |b|
  {
    assert b == a + (b - a);
    assert b - a != {};
  }

  lemma OldestPrefix(rows: map<Id, Row>, at: Time, limit: nat, todo: seq<Id>, k: nat, ids: seq<Id>)
    requires OldestFirst(rows, at, todo)
    requires k == if |todo| <= limit then |todo| else limit
    requires DistinctIds(ids) && |ids| == k && forall i | 0 <= i < k :: ids[i] in todo[..k]
    ensures OldestBatch(rows, at, limit, ids)
  {
    SameIds(ids, todo[..k]);
    forall i | 0 <= i < |ids| ensures ids[i] in rows && Eligible(rows[ids[i]], at) {
      var j :| 0 <= j < k && todo[j] == ids[i];
    }
    forall id | id in rows && Eligible(rows[id], at) && id !in ids ensures |ids| == limit {
      var j :| 0 <= j < |todo| && todo[j] == id;
      PrefixHas(todo, k, j);
    }
    forall id, i | id in rows && Eligible(rows[id], at) && id !in ids && 0 <= i < |ids|
      ensures rows[ids[i]].createdAt <= rows[id].createdAt
    {
      var j :| 0 <= j < |todo| && todo[j] == id;
      var h :| 0 <= h < k && todo[h] == ids[i];
      PrefixHas(todo, k, j);
    }
  }

  /** There always is a token nobody has used. */
  lemma {:induction false} AboveAll(tokens: set<Token>) returns (bound: Token)
    ensures forall t | t in tokens :: t <= bound
    decreases |tokens|
  {
    if tokens == {} {
      bound := 0;
    } else {
      var t :| t in tokens;
      var b := AboveAll(tokens - {t});
      bound := if t <= b then b else t;
      assert forall u | u in tokens :: u == t || u in tokens - {t};
    }
  }

  // ---------------------------------------------------------------------------------------------------------
  // A batch without delay
  // ---------------------------------------------------------------------------------------------------------

  function NewPicks(ids: seq<Id>, bound: Token): seq<Pick> {
    seq(|ids|, i requires 0 <= i < |ids| => Pick(ids[i], bound + 1 + i))
  }

  /** Rows that are due can be leased at this very moment, by any worker that is idle. */
  lemma FetchNow(c: Config, s: State, w: nat, ids: seq<Id>) returns (a: Action)
    requires w < |s.workers| && s.workers[w].Idle? && |ids| <= c.limit && DistinctIds(ids)
    requires forall i | 0 <= i < |ids| :: ids[i] in s.rows && Eligible(s.rows[ids[i]], s.now)
    ensures a.Fetch? && a.w == w && a.at == s.now && PickIds(a.picks) == ids && Enabled(c, s, a)
  {
    var bound := AboveAll(s.issued.Keys);
    var picks := NewPicks(ids, bound);
    assert PickIds(picks) == ids;
    EligibleGrantable(c, Opened(s, w, s.now), w, s.now, picks);
    a := Fetch(w, s.now, picks);
  }

  /** Worker w is about to begin events[pos], and every event left in its batch is leased to it beyond now. */
  ghost predicate ReadyAt(c: Config, s: State, w: nat, pos: nat) {
    && Safe(c, s) && IsBusy(s, w) && s.workers[w].pos == pos <= |s.workers[w].items| && s.workers[w].phase.Ready?
    && (forall i | pos <= i < |s.workers[w].items| ::
          UpToDate(s, s.workers[w].items[i]) && s.now < s.workers[w].items[i].lockedUntil)
  }

  /** Right after a fetch the whole batch is leased beyond now. */
  lemma FetchedReady(c: Config, s: State, a: Action)
    requires Safe(c, s) && a.Fetch? && a.at == s.now && Enabled(c, s, a) && 1 <= c.lease
    ensures var s' := Apply(c, s, a);
            && ReadyAt(c, s', a.w, 0) && s'.now == s.now && |s'.workers| == |s.workers|
            && ItemIds(s'.workers[a.w].items) == PickIds(a.picks)
  {
    var w, s0, s' := a.w, Opened(s, a.w, a.at), Apply(c, s, a);
    OpenedSafe(c, s, w, a.at);
    hide GrantAll, GrantableAll, RowOk, SlotsUnique, SnapshotOrStale, IssuedOk;
    GrantAllSafe(c, s0, w, a.at, a.picks);
    GrantAllEffect(c, s0, w, a.at, a.picks);
    assert WorkerOk(c, s', s'.workers[w]);
    forall i | 0 <= i < |s'.workers[w].items| ensures s'.now < s'.workers[w].items[i].lockedUntil {
      assert ItemOk(c, s', s'.workers[w], s'.workers[w].items[i]);
    }
  }

  /** Check, start, end and mark one event: its mark hits, and the rest of the batch stays as it was. */
  lemma AttemptNow(c: Config, s: State, w: nat, pos: nat, outcome: Outcome)
    returns (s1: State, s2: State, s3: State, s': State)
    requires ReadyAt(c, s, w, pos) && pos < |s.workers[w].items|
    ensures Enabled(c, s, Check(w)) && s1 == Apply(c, s, Check(w))
    ensures Enabled(c, s1, Start(w)) && s2 == Apply(c, s1, Start(w))
    ensures Enabled(c, s2, End(w, outcome)) && s3 == Apply(c, s2, End(w, outcome))
    ensures var mark := Mark(w, Acked, s.now, 0); Enabled(c, s3, mark) && s' == Apply(c, s3, mark)
    ensures s1.rows == s2.rows == s3.rows == s.rows
    ensures ReadyAt(c, s', w, pos + 1) && s'.now == s.now && |s'.workers| == |s.workers|
    ensures s'.workers[w].items == s.workers[w].items
    ensures var item := s.workers[w].items[pos];
            UpToDate(s, item) && s'.rows == s.rows[item.id := MarkedRow(s.rows[item.id], item, outcome, s.now, s.now)]
  {
    hide RowOk, SlotsUnique, SnapshotOrStale, IssuedOk;
    s1, s2 := Apply(c, s, Check(w)), Apply(c, Apply(c, s, Check(w)), Start(w));
    s3 := Apply(c, s2, End(w, outcome));
    var mark := Mark(w, Acked, s.now, 0);
    assert UpToDate(s3, s.workers[w].items[pos]);
    s' := Apply(c, s3, mark);
    StepSafe(c, s, Check(w));
    StepSafe(c, s1, Start(w));
    StepSafe(c, s2, End(w, outcome));
    StepSafe(c, s3, mark);
    assert WorkerOk(c, s, s.workers[w]);
    forall i | pos + 1 <= i < |s'.workers[w].items| ensures UpToDate(s', s'.workers[w].items[i]) {
      assert UpToDate(s, s.workers[w].items[i]);
    }
  }
}
