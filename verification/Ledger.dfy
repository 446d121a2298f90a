/**
 * Provenance: what the log of a run says about every row. Counts of recorded failures equal retry_count, a terminal
 * row has exactly one terminal mark, and each mark follows the publish attempt and the lease that entitle it.
 */
module Ledger {
  import opened Options
  import opened OutboxTypes
  import opened LeaseProtocol

  predicate IsMark(e: Entry) {
    e.MarkedPublished? || e.MarkedFailed?
  }

  predicate IsTerminalMark(e: Entry, id: Id) {
    (e.MarkedPublished? && e.id == id) || (e.MarkedFailed? && e.id == id && e.finalFail)
  }

  /** Recorded failures of one event. */
  function Fails(log: seq<Entry>, id: Id): nat {
    if log == [] then 0
    else
      var e := log[|log| - 1];
      Fails(log[..|log| - 1], id) + if e.MarkedFailed? && e.id == id then 1 else 0
  }

  /** Terminal transitions of one event. */
  function Terminals(log: seq<Entry>, id: Id): nat {
    if log == [] then 0
    else Terminals(log[..|log| - 1], id) + if IsTerminalMark(log[|log| - 1], id) then 1 else 0
  }

  /** Rows moved out of PROCESSING under a set of tokens. */
  function Marks(log: seq<Entry>, tokens: set<Token>): nat {
    if log == [] then 0
    else
      var e := log[|log| - 1];
      Marks(log[..|log| - 1], tokens) + if IsMark(e) && e.token in tokens then 1 else 0
  }

  function TokensOf(items: seq<Item>): set<Token> {
    set x | x in items :: x.token
  }

  lemma Appended(log: seq<Entry>, e: Entry, id: Id, tokens: set<Token>)
    ensures Fails(log + [e], id) == Fails(log, id) + if e.MarkedFailed? && e.id == id then 1 else 0
    ensures Terminals(log + [e], id) == Terminals(log, id) + if IsTerminalMark(e, id) then 1 else 0
    ensures Marks(log + [e], tokens) == Marks(log, tokens) + if IsMark(e) && e.token in tokens then 1 else 0
  {
    assert (log + [e])[..|log|] == log;
  }

  // ---------------------------------------------------------------------------------------------------------
  // Evidence
  // ---------------------------------------------------------------------------------------------------------

  ghost predicate GrantedBefore(log: seq<Entry>, id: Id, token: Token, k: nat) {
    exists h | 0 <= h < k && h < |log| :: log[h].LeaseGranted? && log[h].id == id && log[h].token == token
  }

  /** The attempt returned this outcome under this token, after the token was leased. */
  ghost predicate Ended(log: seq<Entry>, id: Id, token: Token, outcome: Outcome, k: nat) {
    exists i | 0 <= i < k && i < |log| ::
      && log[i].PublishEnded? && log[i].id == id && log[i].token == token && log[i].outcome == outcome
      && GrantedBefore(log, id, token, i)
  }

  /** Leased, then published without error, then marked, all under one token. */
  ghost predicate PublishedProof(log: seq<Entry>, id: Id) {
    exists j | 0 <= j < |log| ::
      log[j].MarkedPublished? && log[j].id == id && Ended(log, id, log[j].token, Success, j)
  }

  /** Leased, then failed for good, then marked: the error was non-retryable or the budget was used up. */
  ghost predicate DeadProof(log: seq<Entry>, id: Id, r: Row) {
    exists j | 0 <= j < |log| ::
      && log[j].MarkedFailed? && log[j].id == id && log[j].finalFail
      && (Ended(log, id, log[j].token, Failure(true), j)
          || (Ended(log, id, log[j].token, Failure(false), j) && r.retryCount >= r.maxRetries))
  }

  /** next_retry_at is the inserted value, or the last recorded failure's time plus at most the largest backoff. */
  ghost predicate RetryJustified(c: Config, log: seq<Entry>, id: Id, next: Time) {
    exists i | 0 <= i < |log| ::
      && !FailedAfter(log, id, i)
      && (|| log[i] == Inserted(id, next)
          || (log[i].MarkedFailed? && log[i].id == id && log[i].nextRetryAt == next
              && log[i].failedAt <= next <= log[i].failedAt + c.maxBackoff))
  }

  ghost predicate FailedAfter(log: seq<Entry>, id: Id, i: nat) {
    exists k | i < k < |log| :: log[k].MarkedFailed? && log[k].id == id
  }

  /** Every lease of the event granted so far has been given back, or runs out no later than `bound`. */
  ghost predicate LeasesOver(c: Config, log: seq<Entry>, id: Id, bound: Option<Time>) {
    forall i | 0 <= i < |log| && log[i].LeaseGranted? && log[i].id == id ::
      FailedAfter(log, id, i) || (bound.Some? && log[i].at + c.lease <= bound.value)
  }

  /** Two leases of one event do not overlap in time unless a recorded failure gave the first one back. */
  ghost predicate LeasesDisjoint(c: Config, log: seq<Entry>) {
    forall i, j | 0 <= i < j < |log| && log[i].LeaseGranted? && log[j].LeaseGranted? && log[i].id == log[j].id ::
      FailedAfter(log[..j], log[i].id, i) || log[i].at + c.lease < log[j].at
  }

  lemma EndedGrows(log: seq<Entry>, e: Entry, id: Id, token: Token, outcome: Outcome, k: nat)
    requires Ended(log, id, token, outcome, k)
    ensures Ended(log + [e], id, token, outcome, k)
  {
    var i :| 0 <= i < k && i < |log| &&
             log[i].PublishEnded? && log[i].id == id && log[i].token == token && log[i].outcome == outcome &&
             GrantedBefore(log, id, token, i);
    var h :| 0 <= h < i && h < |log| && log[h].LeaseGranted? && log[h].id == id && log[h].token == token;
    var log' := log + [e];
    assert log'[i] == log[i] && log'[h] == log[h];
    assert GrantedBefore(log', id, token, i);
  }

  lemma EvidenceGrows(c: Config, log: seq<Entry>, e: Entry, id: Id, r: Row)
    ensures PublishedProof(log, id) ==> PublishedProof(log + [e], id)
    ensures DeadProof(log, id, r) ==> DeadProof(log + [e], id, r)
    ensures RetryJustified(c, log, id, r.nextRetryAt) && !(e.MarkedFailed? && e.id == id) ==>
              RetryJustified(c, log + [e], id, r.nextRetryAt)
  {
    hide PublishedProof, DeadProof, RetryJustified;
    if PublishedProof(log, id) {
      PublishedGrows(log, e, id);
    }
    if DeadProof(log, id, r) {
      DeadGrows(log, e, id, r);
    }
    if RetryJustified(c, log, id, r.nextRetryAt) && !(e.MarkedFailed? && e.id == id) {
      RetryGrows(c, log, e, id, r.nextRetryAt);
    }
  }

  lemma PublishedGrows(log: seq<Entry>, e: Entry, id: Id)
    requires PublishedProof(log, id)
    ensures PublishedProof(log + [e], id)
  {
    hide Ended;
    var j :| 0 <= j < |log| && log[j].MarkedPublished? && log[j].id == id && Ended(log, id, log[j].token, Success, j);
    EndedGrows(log, e, id, log[j].token, Success, j);
    assert (log + [e])[j] == log[j];
  }

  lemma DeadGrows(log: seq<Entry>, e: Entry, id: Id, r: Row)
    requires DeadProof(log, id, r)
    ensures DeadProof(log + [e], id, r)
  {
    hide Ended;
    var j :| 0 <= j < |log| && log[j].MarkedFailed? && log[j].id == id && log[j].finalFail
             && (Ended(log, id, log[j].token, Failure(true), j)
                 || (Ended(log, id, log[j].token, Failure(false), j) && r.retryCount >= r.maxRetries));
    assert (log + [e])[j] == log[j];
    if Ended(log, id, log[j].token, Failure(true), j) {
      EndedGrows(log, e, id, log[j].token, Failure(true), j);
    } else {
      EndedGrows(log, e, id, log[j].token, Failure(false), j);
    }
  }

  lemma RetryGrows(c: Config, log: seq<Entry>, e: Entry, id: Id, next: Time)
    requires RetryJustified(c, log, id, next) && !(e.MarkedFailed? && e.id == id)
    ensures RetryJustified(c, log + [e], id, next)
  {
    var log' := log + [e];
    var i :| 0 <= i < |log| && !FailedAfter(log, id, i) &&
             (log[i] == Inserted(id, next) ||
              (log[i].MarkedFailed? && log[i].id == id && log[i].nextRetryAt == next
               && log[i].failedAt <= next <= log[i].failedAt + c.maxBackoff));
    assert log'[i] == log[i];
    assert !FailedAfter(log', id, i);
  }

  /** A new entry other than a lease of this event keeps its old leases over. */
  lemma LeasesOverGrows(c: Config, log: seq<Entry>, e: Entry, id: Id, bound: Option<Time>)
    requires LeasesOver(c, log, id, bound)
    requires e.LeaseGranted? && e.id == id ==> bound.Some? && e.at + c.lease <= bound.value
    ensures LeasesOver(c, log + [e], id, bound)
  {
    var log' := log + [e];
    forall i | 0 <= i < |log'| && log'[i].LeaseGranted? && log'[i].id == id
      ensures FailedAfter(log', id, i) || (bound.Some? && log'[i].at + c.lease <= bound.value)
    {
      if i < |log| && FailedAfter(log, id, i) {
        var k :| i < k < |log| && log[k].MarkedFailed? && log[k].id == id;
        assert log'[k] == log[k];
      }
    }
  }

  /** A recorded failure gives every lease of the event back. */
  lemma FailureEndsLeases(c: Config, log: seq<Entry>, e: Entry, id: Id, bound: Option<Time>)
    requires e.MarkedFailed? && e.id == id
    ensures LeasesOver(c, log + [e], id, bound)
  {
    var log' := log + [e];
    assert log'[|log|] == e;
  }

  lemma DisjointGrows(c: Config, log: seq<Entry>, e: Entry, bound: Option<Time>)
    requires LeasesDisjoint(c, log)
    requires e.LeaseGranted? ==> LeasesOver(c, log, e.id, bound) && (bound.Some? ==> bound.value < e.at)
    ensures LeasesDisjoint(c, log + [e])
  {
    var log' := log + [e];
    forall i, j | 0 <= i < j < |log'| && log'[i].LeaseGranted? && log'[j].LeaseGranted? && log'[i].id == log'[j].id
      ensures FailedAfter(log'[..j], log'[i].id, i) || log'[i].at + c.lease < log'[j].at
    {
      if j < |log| {
        assert log'[..j] == log[..j];
      } else {
        assert log'[..j] == log;
      }
    }
  }

  // ---------------------------------------------------------------------------------------------------------
  // The ledger invariant
  // ---------------------------------------------------------------------------------------------------------

  ghost predicate RowLedger(c: Config, s: State, id: Id)
    requires id in s.rows
  {
    var r := s.rows[id];
    && Fails(s.log, id) == r.retryCount
    && Terminals(s.log, id) == (if r.status.IsTerminal() then 1 else 0)
    && (r.status.Published? ==> PublishedProof(s.log, id))
    && (r.status.DeadLetter? ==> DeadProof(s.log, id, r))
    && RetryJustified(c, s.log, id, r.nextRetryAt)
    && (!r.status.IsTerminal() ==> LeasesOver(c, s.log, id, r.lockedUntil))
    && (r.leaseToken.Some? ==> Marks(s.log, {r.leaseToken.value}) == 0)
  }

  ghost predicate WorkerLedger(s: State, wk: Worker) {
    wk.Busy? ==>
      && wk.count + wk.lost == Marks(s.log, TokensOf(wk.items))
      && (wk.phase.Returned? && wk.pos < |wk.items| ==>
            Ended(s.log, wk.items[wk.pos].id, wk.items[wk.pos].token, wk.phase.outcome, |s.log|))
  }

  /** The log speaks of known rows and issued tokens only, and of no failure that is yet to come. */
  ghost predicate EntryOk(s: State, e: Entry) {
    && e.id in s.rows
    && (!e.Inserted? ==> e.token in s.issued)
    && (e.MarkedFailed? ==> e.failedAt <= s.now)
  }

  /** A lease that was granted runs for the configured time from then on. */
  ghost predicate LeaseDated(c: Config, s: State, e: Entry) {
    e.LeaseGranted? ==> e.token in s.issued && s.issued[e.token].lockedUntil == e.at + c.lease
  }

  ghost predicate LogOk(c: Config, s: State) {
    && (forall k | 0 <= k < |s.log| :: EntryOk(s, s.log[k]))
    && (forall k | 0 <= k < |s.log| :: LeaseDated(c, s, s.log[k]))
    && (forall t | t in s.issued :: GrantedBefore(s.log, s.issued[t].id, t, |s.log|))
    && (forall t: Token :: Marks(s.log, {t}) <= 1)
    && LeasesDisjoint(c, s.log)
  }

  ghost predicate Booked(c: Config, s: State) {
    && LogOk(c, s)
    && (forall id | id in s.rows :: RowLedger(c, s, id))
    && (forall w | 0 <= w < |s.workers| :: WorkerLedger(s, s.workers[w]))
  }

  lemma InitBooked(c: Config, start: Time, n: nat)
    ensures Booked(c, Init(start, n))
  {
  }

  lemma {:induction false} NoEntryNoCount(log: seq<Entry>, id: Id)
    requires forall k | 0 <= k < |log| :: log[k].id != id
    ensures Fails(log, id) == 0 && Terminals(log, id) == 0
  {
    if log != [] {
      NoEntryNoCount(log[..|log| - 1], id);
    }
  }

  lemma {:induction false} NoTokenNoMark(log: seq<Entry>, tokens: set<Token>, t: Token)
    requires forall k | 0 <= k < |log| && !log[k].Inserted? :: log[k].token != t
    ensures Marks(log, tokens + {t}) == Marks(log, tokens) && Marks(log, {t}) == 0
  {
    if log != [] {
      NoTokenNoMark(log[..|log| - 1], tokens, t);
    }
  }

  /** One new entry, the table and workers changed only as the caller says. */
  lemma LogGrows(c: Config, s: State, s': State, e: Entry, bound: Option<Time>)
    requires LogOk(c, s) && s'.log == s.log + [e]
    requires s.rows.Keys <= s'.rows.Keys && s.now <= s'.now && EntryOk(s', e) && LeaseDated(c, s', e)
    requires forall t | t in s.issued :: t in s'.issued && s'.issued[t] == s.issued[t]
    requires forall t | t in s'.issued && t !in s.issued :: e.LeaseGranted? && e.id == s'.issued[t].id && e.token == t
    requires IsMark(e) ==> Marks(s.log, {e.token}) == 0
    requires e.LeaseGranted? ==> LeasesOver(c, s.log, e.id, bound) && (bound.Some? ==> bound.value < e.at)
    ensures LogOk(c, s')
  {
    forall k | 0 <= k < |s'.log| ensures EntryOk(s', s'.log[k]) && LeaseDated(c, s', s'.log[k]) {
      if k < |s.log| {
        assert EntryOk(s, s.log[k]) && LeaseDated(c, s, s.log[k]);
      }
    }
    forall t | t in s'.issued ensures GrantedBefore(s'.log, s'.issued[t].id, t, |s'.log|) {
      if t in s.issued {
        var h :| 0 <= h < |s.log| && s.log[h].LeaseGranted? && s.log[h].id == s.issued[t].id && s.log[h].token == t;
        assert s'.log[h] == s.log[h];
      } else {
        assert s'.log[|s.log|] == e;
      }
    }
    forall t: Token ensures Marks(s'.log, {t}) <= 1 {
      Appended(s.log, e, 0, {t});
    }
    DisjointGrows(c, s.log, e, bound);
  }

  /** Rows and batches an entry says nothing about keep their ledgers. */
  lemma OthersGrow(c: Config, s: State, s': State, e: Entry)
    requires Booked(c, s) && s'.log == s.log + [e]
    ensures forall id | id in s.rows && id in s'.rows && s'.rows[id] == s.rows[id] && e.id != id
                        && (IsMark(e) ==> s.rows[id].leaseToken != Some(e.token)) ::
              RowLedger(c, s', id)
    ensures forall w | 0 <= w < |s.workers| && |s'.workers| == |s.workers| && s'.workers[w] == s.workers[w]
                       && (IsMark(e) && s.workers[w].Busy? ==> e.token !in TokensOf(s.workers[w].items)) ::
              WorkerLedger(s', s'.workers[w])
  {
    forall id | id in s.rows && id in s'.rows && s'.rows[id] == s.rows[id] && e.id != id
                && (IsMark(e) ==> s.rows[id].leaseToken != Some(e.token))
      ensures RowLedger(c, s', id)
    {
      RowGrows(c, s, s', e, id);
    }
    forall w | 0 <= w < |s.workers| && |s'.workers| == |s.workers| && s'.workers[w] == s.workers[w]
               && (IsMark(e) && s.workers[w].Busy? ==> e.token !in TokensOf(s.workers[w].items))
      ensures WorkerLedger(s', s'.workers[w])
    {
      WorkerGrows(s, s', e, s.workers[w]);
    }
  }

  lemma RowGrows(c: Config, s: State, s': State, e: Entry, id: Id)
    requires id in s.rows && RowLedger(c, s, id) && s'.log == s.log + [e]
    requires id in s'.rows && s'.rows[id] == s.rows[id]
    requires e.id == id ==> !IsMark(e) && !e.LeaseGranted?
    requires IsMark(e) ==> s.rows[id].leaseToken != Some(e.token)
    ensures RowLedger(c, s', id)
  {
    var r := s.rows[id];
    Appended(s.log, e, id, if r.leaseToken.Some? then {r.leaseToken.value} else {});
    EvidenceGrows(c, s.log, e, id, r);
    if !r.status.IsTerminal() {
      LeasesOverGrows(c, s.log, e, id, r.lockedUntil);
    }
  }

  lemma WorkerGrows(s: State, s': State, e: Entry, wk: Worker)
    requires WorkerLedger(s, wk) && s'.log == s.log + [e]
    requires IsMark(e) && wk.Busy? ==> e.token !in TokensOf(wk.items)
    ensures WorkerLedger(s', wk)
  {
    if wk.Busy? {
      Appended(s.log, e, 0, TokensOf(wk.items));
      if wk.phase.Returned? && wk.pos < |wk.items| {
        var item := wk.items[wk.pos];
        EndedGrows(s.log, e, item.id, item.token, wk.phase.outcome, |s.log|);
        EndedLater(s'.log, item.id, item.token, wk.phase.outcome, |s.log|, |s'.log|);
      }
    }
  }

  lemma EndedLater(log: seq<Entry>, id: Id, token: Token, outcome: Outcome, k: nat, k': nat)
    requires Ended(log, id, token, outcome, k) && k <= k'
    ensures Ended(log, id, token, outcome, k')
  {
  }

  // ---------------------------------------------------------------------------------------------------------
  // Every step keeps the ledger
  // ---------------------------------------------------------------------------------------------------------

  lemma InsertedRowBooked(c: Config, s: State, id: Id, r: Row, s': State)
    requires forall k | 0 <= k < |s.log| :: s.log[k].id != id
    requires r == NewRow(r.maxRetries, r.createdAt, r.nextRetryAt)
    requires s'.log == s.log + [Inserted(id, r.nextRetryAt)] && id in s'.rows && s'.rows[id] == r
    ensures RowLedger(c, s', id)
  {
    NoEntryNoCount(s.log, id);
    Appended(s.log, Inserted(id, r.nextRetryAt), id, {});
    assert s'.log[|s.log|] == Inserted(id, r.nextRetryAt);
  }

  lemma InsertBooked(c: Config, s: State, a: Action)
    requires Booked(c, s) && a.Insert? && Enabled(c, s, a)
    ensures Booked(c, Apply(c, s, a))
  {
    hide RowLedger, WorkerLedger;
    var s' := Apply(c, s, a);
    var e := Inserted(a.id, a.nextRetryAt);
    assert forall k | 0 <= k < |s.log| :: EntryOk(s, s.log[k]);
    InsertedRowBooked(c, s, a.id, s'.rows[a.id], s');
    OthersGrow(c, s, s', e);
    LogGrows(c, s, s', e, None);
  }

  /** Steps that write no entry and leave the table alone. */
  lemma QuietBooked(c: Config, s: State, s': State)
    requires Booked(c, s) && s'.rows == s.rows && s'.log == s.log && s'.issued == s.issued && s.now <= s'.now
    requires |s'.workers| == |s.workers|
    requires forall w | 0 <= w < |s.workers| :: WorkerLedger(s, s'.workers[w])
    ensures Booked(c, s')
  {
    forall k | 0 <= k < |s'.log| ensures EntryOk(s', s'.log[k]) && LeaseDated(c, s', s'.log[k]) {
      assert EntryOk(s, s.log[k]) && LeaseDated(c, s, s.log[k]);
    }
    forall id | id in s'.rows ensures RowLedger(c, s', id) {
      assert RowLedger(c, s, id);
    }
    forall w | 0 <= w < |s'.workers| ensures WorkerLedger(s', s'.workers[w]) {
      assert WorkerLedger(s, s'.workers[w]);
    }
  }

  lemma TickBooked(c: Config, s: State, a: Action)
    requires Booked(c, s) && a.Tick? && Enabled(c, s, a)
    ensures Booked(c, Apply(c, s, a))
  {
    QuietBooked(c, s, Apply(c, s, a));
  }

  /** Only worker w changes, and not in what the ledger counts. */
  lemma LocalBooked(c: Config, s: State, s': State, w: nat)
    requires Booked(c, s) && WorkerStep(c, s, s', w) && s'.log == s.log
    requires var wk, wk' := s.workers[w], s'.workers[w];
             wk'.Busy? ==> wk'.count == wk.count && wk'.lost == wk.lost && !wk'.phase.Returned?
    ensures Booked(c, s')
  {
    forall v | 0 <= v < |s.workers| ensures WorkerLedger(s, s'.workers[v]) {
      assert WorkerLedger(s, s.workers[v]);
    }
    QuietBooked(c, s, s');
  }

  lemma WorkerActBooked(c: Config, s: State, a: Action, w: nat)
    requires Safe(c, s) && Booked(c, s) && Enabled(c, s, a)
    requires a in {Check(w), Start(w), Finish(w), Crash(w)}
    ensures Booked(c, Apply(c, s, a))
  {
    hide Booked, IssuedOk, RowOk, SlotsUnique, SnapshotOrStale;
    assert WorkerOk(c, s, s.workers[w]);
    LocalBooked(c, s, Apply(c, s, a), w);
  }

  lemma EndWorkerBooked(c: Config, s: State, w: nat, outcome: Outcome, s': State)
    requires Safe(c, s) && Booked(c, s) && AtItem(s, w) && s' == ApplyEnd(s, w, outcome)
    ensures WorkerLedger(s', s'.workers[w])
  {
    hide RowOk, SlotsUnique, SnapshotOrStale, RowLedger, Marks, LeasesDisjoint, EntryOk;
    var item := Current(s, w);
    var e := PublishEnded(item.id, item.token, outcome, s.now);
    assert WorkerOk(c, s, s.workers[w]) && ItemOk(c, s, s.workers[w], item);
    assert s'.log[|s.log|] == e;
    assert GrantedBefore(s.log, s.issued[item.token].id, item.token, |s.log|);
    var h :| 0 <= h < |s.log| && s.log[h].LeaseGranted? && s.log[h].id == item.id && s.log[h].token == item.token;
    assert s'.log[h] == s.log[h];
    assert GrantedBefore(s'.log, item.id, item.token, |s.log|);
    Appended(s.log, e, 0, TokensOf(s.workers[w].items));
    assert WorkerLedger(s, s.workers[w]);
  }

  lemma EndBooked(c: Config, s: State, w: nat, outcome: Outcome)
    requires Safe(c, s) && Booked(c, s) && AtItem(s, w)
    ensures Booked(c, ApplyEnd(s, w, outcome))
  {
    hide RowOk, SlotsUnique, SnapshotOrStale, IssuedOk, RowLedger, WorkerLedger;
    var s' := ApplyEnd(s, w, outcome);
    var item := Current(s, w);
    var e := PublishEnded(item.id, item.token, outcome, s.now);
    assert WorkerOk(c, s, s.workers[w]) && ItemOk(c, s, s.workers[w], item);
    LogGrows(c, s, s', e, None);
    forall id | id in s'.rows ensures RowLedger(c, s', id) {
      RowGrows(c, s, s', e, id);
    }
    EndWorkerBooked(c, s, w, outcome, s');
    forall v | 0 <= v < |s'.workers| ensures WorkerLedger(s', s'.workers[v]) {
      if v != w {
        WorkerGrows(s, s', e, s.workers[v]);
      }
    }
  }

  lemma OpenedBooked(c: Config, s: State, w: nat, at: Time)
    requires Booked(c, s) && w < |s.workers|
    ensures Booked(c, Opened(s, w, at))
  {
    var s' := Opened(s, w, at);
    NoTokensNoMarks(s.log);
    forall v | 0 <= v < |s.workers| ensures WorkerLedger(s, s'.workers[v]) {
      assert WorkerLedger(s, s.workers[v]);
      assert v == w ==> TokensOf(s'.workers[v].items) == {};
    }
    QuietBooked(c, s, s');
  }

  lemma {:induction false} NoTokensNoMarks(log: seq<Entry>)
    ensures Marks(log, {}) == 0
  {
    if log != [] {
      NoTokensNoMarks(log[..|log| - 1]);
    }
  }

  lemma GrantRowBooked(c: Config, s: State, w: nat, at: Time, p: Pick, s': State)
    requires Safe(c, s) && Booked(c, s) && Grantable(c, s, w, at, p) && s' == Grant(c, s, w, at, p)
    ensures RowLedger(c, s', p.id)
    ensures LeasesOver(c, s.log, p.id, s.rows[p.id].lockedUntil)
  {
    hide PublishedProof, DeadProof, RetryJustified, Fails, Terminals, Marks, WorkerLedger, WorkerOk, SlotsUnique,
         SnapshotOrStale;
    var e := LeaseGranted(p.id, p.token, at);
    var r := s.rows[p.id];
    assert RowLedger(c, s, p.id) && RowOk(c, s, p.id, r);
    assert forall k | 0 <= k < |s.log| :: EntryOk(s, s.log[k]);
    NoTokenNoMark(s.log, {}, p.token);
    Appended(s.log, e, p.id, {p.token});
    EvidenceGrows(c, s.log, e, p.id, r);
    var bound := Some(at + c.lease);
    assert LeasesOver(c, s.log, p.id, bound);
    LeasesOverGrows(c, s.log, e, p.id, bound);
  }

  lemma GrantLogBooked(c: Config, s: State, w: nat, at: Time, p: Pick, s': State)
    requires Safe(c, s) && LogOk(c, s) && Grantable(c, s, w, at, p) && s' == Grant(c, s, w, at, p)
    requires LeasesOver(c, s.log, p.id, s.rows[p.id].lockedUntil)
    ensures LogOk(c, s')
  {
    LogGrows(c, s, s', LeaseGranted(p.id, p.token, at), s.rows[p.id].lockedUntil);
  }

  lemma GrantBooked(c: Config, s: State, w: nat, at: Time, p: Pick)
    requires Safe(c, s) && Booked(c, s) && Grantable(c, s, w, at, p)
    ensures Booked(c, Grant(c, s, w, at, p))
  {
    hide Safe, RowLedger, WorkerLedger, LogOk;
    var s' := Grant(c, s, w, at, p);
    var e := LeaseGranted(p.id, p.token, at);
    GrantRowBooked(c, s, w, at, p, s');
    GrantLogBooked(c, s, w, at, p, s');
    OthersGrow(c, s, s', e);
    GrantWorkerBooked(c, s, w, at, p, s');
  }

  lemma GrantWorkerBooked(c: Config, s: State, w: nat, at: Time, p: Pick, s': State)
    requires Safe(c, s) && Booked(c, s) && Grantable(c, s, w, at, p) && s' == Grant(c, s, w, at, p)
    ensures WorkerLedger(s', s'.workers[w])
  {
    hide Marks, RowLedger, RowOk, SlotsUnique, SnapshotOrStale, LeasesDisjoint;
    var e := LeaseGranted(p.id, p.token, at);
    var wk, wk' := s.workers[w], s'.workers[w];
    assert forall k | 0 <= k < |s.log| :: EntryOk(s, s.log[k]);
    NoTokenNoMark(s.log, TokensOf(wk.items), p.token);
    assert TokensOf(wk'.items) == TokensOf(wk.items) + {p.token};
    Appended(s.log, e, p.id, TokensOf(wk'.items));
    assert WorkerLedger(s, wk) && WorkerOk(c, s, wk);
    WorkerGrows(s, s', e, wk);
  }

  lemma {:induction false} GrantAllBooked(c: Config, s: State, w: nat, at: Time, picks: seq<Pick>)
    requires Safe(c, s) && Booked(c, s) && GrantableAll(c, s, w, at, picks) && Collecting(s, w, at)
    ensures Booked(c, GrantAll(c, s, w, at, picks))
    decreases |picks|
  {
    if picks != [] {
      GrantSafe(c, s, w, at, picks[0]);
      GrantBooked(c, s, w, at, picks[0]);
      GrantAllBooked(c, Grant(c, s, w, at, picks[0]), w, at, picks[1..]);
    }
  }

  /** The marked row: its counters, its proof and its retry time. */
  lemma MarkRowBooked(c: Config, s: State, w: nat, failedAt: Time, backoff: nat, s': State)
    requires Safe(c, s) && Booked(c, s) && AtItem(s, w) && s.workers[w].phase.Returned?
    requires Matches(s.rows, Current(s, w).id, Current(s, w).token) && backoff <= c.maxBackoff
    requires var item, outcome := Current(s, w), s.workers[w].phase.outcome;
             && s'.log == s.log + [MarkEntry(item, outcome, failedAt, failedAt + backoff)]
             && s'.rows == s.rows[item.id := MarkedRow(s.rows[item.id], item, outcome, failedAt, failedAt + backoff)]
    ensures RowLedger(c, s', Current(s, w).id)
    ensures Marks(s.log, {Current(s, w).token}) == 0
  {
    var item, outcome := Current(s, w), s.workers[w].phase.outcome;
    var r := s.rows[item.id];
    assert RowLedger(c, s, item.id) && RowOk(c, s, item.id, r);
    assert WorkerOk(c, s, s.workers[w]) && ItemOk(c, s, s.workers[w], item);
    assert WorkerLedger(s, s.workers[w]);
    match outcome
    case Success => PublishedRowBooked(c, s, item, failedAt, s');
    case Failure(nonRetryable) => FailedRowBooked(c, s, item, nonRetryable, failedAt, backoff, s');
  }

  lemma PublishedRowBooked(c: Config, s: State, item: Item, at: Time, s': State)
    requires UpToDate(s, item) && RowLedger(c, s, item.id) && s.rows[item.id].status.Processing?
    requires Ended(s.log, item.id, item.token, Success, |s.log|)
    requires s'.log == s.log + [MarkedPublished(item.id, item.token)]
    requires item.id in s'.rows && s'.rows[item.id] == PublishedRow(s.rows[item.id], at)
    ensures RowLedger(c, s', item.id)
  {
    var e := MarkedPublished(item.id, item.token);
    Appended(s.log, e, item.id, {});
    EndedGrows(s.log, e, item.id, item.token, Success, |s.log|);
    EvidenceGrows(c, s.log, e, item.id, s.rows[item.id]);
    assert s'.log[|s.log|] == e;
  }

  lemma FailedRowBooked(c: Config, s: State, item: Item, nonRetryable: bool, failedAt: Time, backoff: nat, s': State)
    requires UpToDate(s, item) && RowLedger(c, s, item.id) && s.rows[item.id].status.Processing?
    requires Ended(s.log, item.id, item.token, Failure(nonRetryable), |s.log|) && backoff <= c.maxBackoff
    requires s'.log == s.log + [MarkEntry(item, Failure(nonRetryable), failedAt, failedAt + backoff)]
    requires item.id in s'.rows
    requires s'.rows[item.id] == FailedRow(s.rows[item.id], failedAt + backoff, FinalFail(item, nonRetryable))
    ensures RowLedger(c, s', item.id)
  {
    hide Fails, Terminals, Marks, PublishedProof, GrantedBefore;
    var e := MarkEntry(item, Failure(nonRetryable), failedAt, failedAt + backoff);
    Appended(s.log, e, item.id, {});
    EndedGrows(s.log, e, item.id, item.token, Failure(nonRetryable), |s.log|);
    assert s'.log[|s.log|] == e;
    FailureEndsLeases(c, s.log, e, item.id, None);
  }

  /** Somebody else's batch does not carry the marked token. */
  lemma OtherBatches(c: Config, s: State, w: nat, v: nat)
    requires Safe(c, s) && AtItem(s, w) && v != w && IsBusy(s, v)
    ensures Current(s, w).token !in TokensOf(s.workers[v].items)
  {
    if Current(s, w).token in TokensOf(s.workers[v].items) {
      var i: nat :| i < |s.workers[v].items| && s.workers[v].items[i].token == Current(s, w).token;
      assert IsSlot(s, v, i) && IsSlot(s, w, s.workers[w].pos);
      assert false;
    }
  }

  /** The marked token is on no other row. */
  lemma OtherRows(c: Config, s: State, id: Id, other: Id, token: Token)
    requires Safe(c, s) && Matches(s.rows, id, token) && other in s.rows && other != id
    ensures s.rows[other].leaseToken != Some(token)
  {
    assert RowOk(c, s, id, s.rows[id]) && RowOk(c, s, other, s.rows[other]);
  }

  lemma MarkWorkerBooked(c: Config, s: State, w: nat, reply: Reply, failedAt: Time, nextRetry: Time, s': State)
    requires Safe(c, s) && Booked(c, s) && AtItem(s, w) && s.workers[w].phase.Returned?
    requires Matches(s.rows, Current(s, w).id, Current(s, w).token) && !reply.Refused?
    requires s' == ApplyMark(s, w, reply, failedAt, nextRetry)
    ensures WorkerLedger(s', s'.workers[w])
  {
    hide Safe, RowLedger, LogOk, Marks, Ended, MarkedRow;
    var item, outcome := Current(s, w), s.workers[w].phase.outcome;
    Appended(s.log, MarkEntry(item, outcome, failedAt, nextRetry), item.id, TokensOf(s.workers[w].items));
    assert WorkerLedger(s, s.workers[w]);
    assert item in s.workers[w].items;
  }

  lemma MarkRowsBooked(c: Config, s: State, w: nat, failedAt: Time, backoff: nat, s': State)
    requires Safe(c, s) && Booked(c, s) && AtItem(s, w) && s.workers[w].phase.Returned?
    requires Matches(s.rows, Current(s, w).id, Current(s, w).token) && backoff <= c.maxBackoff
    requires var item, outcome := Current(s, w), s.workers[w].phase.outcome;
             && s'.log == s.log + [MarkEntry(item, outcome, failedAt, failedAt + backoff)]
             && s'.rows == s.rows[item.id := MarkedRow(s.rows[item.id], item, outcome, failedAt, failedAt + backoff)]
    ensures forall id | id in s'.rows :: RowLedger(c, s', id)
  {
    hide Safe, LogOk, WorkerLedger;
    var item, outcome := Current(s, w), s.workers[w].phase.outcome;
    var e := MarkEntry(item, outcome, failedAt, failedAt + backoff);
    MarkRowBooked(c, s, w, failedAt, backoff, s');
    forall id | id in s'.rows ensures RowLedger(c, s', id) {
      if id != item.id {
        OtherRows(c, s, item.id, id, item.token);
        RowGrows(c, s, s', e, id);
      }
    }
  }

  lemma MarkWorkersBooked(c: Config, s: State, w: nat, reply: Reply, failedAt: Time, nextRetry: Time, s': State)
    requires Safe(c, s) && Booked(c, s) && AtItem(s, w) && s.workers[w].phase.Returned?
    requires Matches(s.rows, Current(s, w).id, Current(s, w).token) && !reply.Refused?
    requires s' == ApplyMark(s, w, reply, failedAt, nextRetry)
    ensures forall v | 0 <= v < |s'.workers| :: WorkerLedger(s', s'.workers[v])
  {
    var e := MarkEntry(Current(s, w), s.workers[w].phase.outcome, failedAt, nextRetry);
    MarkWorkerBooked(c, s, w, reply, failedAt, nextRetry, s');
    forall v | 0 <= v < |s'.workers| ensures WorkerLedger(s', s'.workers[v]) {
      if v != w {
        if IsBusy(s, v) {
          OtherBatches(c, s, w, v);
        }
        WorkerGrows(s, s', e, s.workers[v]);
      }
    }
  }

  lemma MarkLogBooked(c: Config, s: State, w: nat, failedAt: Time, nextRetry: Time, s': State)
    requires Safe(c, s) && LogOk(c, s) && AtItem(s, w) && s.workers[w].phase.Returned?
    requires Marks(s.log, {Current(s, w).token}) == 0
    requires s'.issued == s.issued && s'.rows.Keys == s.rows.Keys && failedAt <= s.now <= s'.now
    requires s'.log == s.log + [MarkEntry(Current(s, w), s.workers[w].phase.outcome, failedAt, nextRetry)]
    ensures LogOk(c, s')
  {
    var e := MarkEntry(Current(s, w), s.workers[w].phase.outcome, failedAt, nextRetry);
    assert WorkerOk(c, s, s.workers[w]) && ItemOk(c, s, s.workers[w], Current(s, w));
    assert EntryOk(s', e);
    LogGrows(c, s, s', e, None);
  }

  lemma MarkHitBooked(c: Config, s: State, w: nat, reply: Reply, failedAt: Time, backoff: nat, s': State)
    requires Safe(c, s) && Booked(c, s) && AtItem(s, w) && s.workers[w].phase.Returned? && backoff <= c.maxBackoff
    requires Matches(s.rows, Current(s, w).id, Current(s, w).token) && !reply.Refused? && failedAt <= s.now
    requires s' == ApplyMark(s, w, reply, failedAt, failedAt + backoff)
    ensures Booked(c, s')
  {
    hide RowLedger, WorkerLedger, LogOk, Safe;
    MarkRowsBooked(c, s, w, failedAt, backoff, s');
    MarkWorkersBooked(c, s, w, reply, failedAt, failedAt + backoff, s');
    MarkRowBooked(c, s, w, failedAt, backoff, s');
    MarkLogBooked(c, s, w, failedAt, failedAt + backoff, s');
  }

  /** A mark that finds no row, or never ran. */
  lemma MarkMissBooked(c: Config, s: State, w: nat, reply: Reply, failedAt: Time, nextRetry: Time, s': State)
    requires Booked(c, s) && AtItem(s, w) && s.workers[w].phase.Returned?
    requires !Matches(s.rows, Current(s, w).id, Current(s, w).token) || reply.Refused?
    requires s' == ApplyMark(s, w, reply, failedAt, nextRetry)
    ensures Booked(c, s')
  {
    forall v | 0 <= v < |s.workers| ensures WorkerLedger(s, s'.workers[v]) {
      assert WorkerLedger(s, s.workers[v]);
    }
    QuietBooked(c, s, s');
  }

  lemma MarkBooked(c: Config, s: State, a: Action)
    requires Safe(c, s) && Booked(c, s) && a.Mark? && Enabled(c, s, a)
    ensures Booked(c, Apply(c, s, a))
  {
    hide Booked, Safe;
    var s', w := Apply(c, s, a), a.w;
    if Matches(s.rows, Current(s, w).id, Current(s, w).token) && !a.reply.Refused? {
      MarkHitBooked(c, s, w, a.reply, a.failedAt, a.backoff, s');
    } else {
      MarkMissBooked(c, s, w, a.reply, a.failedAt, a.failedAt + a.backoff, s');
    }
  }

  lemma FetchBooked(c: Config, s: State, w: nat, at: Time, picks: seq<Pick>)
    requires Safe(c, s) && Booked(c, s) && Enabled(c, s, Fetch(w, at, picks))
    ensures Booked(c, Apply(c, s, Fetch(w, at, picks)))
  {
    OpenedSafe(c, s, w, at);
    OpenedBooked(c, s, w, at);
    GrantAllBooked(c, Opened(s, w, at), w, at, picks);
  }

  lemma StepBooked(c: Config, s: State, a: Action)
    requires Safe(c, s) && Booked(c, s) && Enabled(c, s, a)
    ensures Booked(c, Apply(c, s, a))
  {
    if a.Insert? {
      InsertBooked(c, s, a);
    } else if a.Tick? {
      TickBooked(c, s, a);
    } else if a.Fetch? {
      FetchBooked(c, s, a.w, a.at, a.picks);
    } else if a.End? {
      EndBooked(c, s, a.w, a.outcome);
    } else if a.Mark? {
      MarkBooked(c, s, a);
    } else {
      WorkerActBooked(c, s, a, a.w);
    }
  }

  /** Safe and Booked hold in every state a run can reach. */
  lemma {:induction false} RunBooked(c: Config, s: State, acts: seq<Action>)
    requires Safe(c, s) && Booked(c, s) && ValidRun(c, s, acts)
    ensures Safe(c, Exec(c, s, acts)) && Booked(c, Exec(c, s, acts))
    decreases |acts|
  {
    if acts != [] {
      StepSafe(c, s, acts[0]);
      StepBooked(c, s, acts[0]);
      RunBooked(c, Apply(c, s, acts[0]), acts[1..]);
    }
  }
}
