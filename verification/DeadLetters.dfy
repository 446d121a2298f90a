/**
 * When an event is given up: exactly when a failure is recorded for it after a permanent error, or as the last of its
 * attempts. No poison pill is retried, and no event that may be tried again is lost.
 */
module DeadLetters {
  import opened OutboxTypes
  import opened LeaseProtocol
  import opened Ledger
  import opened Batches
  import LeaseSafety
  import Duplicates
  import BackoffRuns

  /** Every attempt under this token that has returned came to this outcome. */
  ghost predicate EndsAre(log: seq<Entry>, token: Token, outcome: Outcome) {
    forall k | 0 <= k < |log| && log[k].PublishEnded? && log[k].token == token :: log[k].outcome == outcome
  }

  ghost predicate NoEnd(log: seq<Entry>, token: Token) {
    forall k | 0 <= k < |log| && log[k].PublishEnded? :: log[k].token != token
  }

  /** A worker publishes each event of its batch once: the outcome it holds is the only one of the event's token. */
  ghost predicate PublishesOnce(s: State) {
    forall w: nat, i: nat | Holds(s, w, i) ::
      var wk := s.workers[w];
      if i == wk.pos && wk.phase.Returned? then EndsAre(s.log, wk.items[i].token, wk.phase.outcome)
      else NoEnd(s.log, wk.items[i].token)
  }

  /** The attempt marked by entry j ended with a permanent error, or was the last one the row allows. */
  ghost predicate GivesUp(log: seq<Entry>, j: nat, maxRetries: int)
    requires j < |log| && log[j].MarkedFailed?
  {
    || Ended(log, log[j].id, log[j].token, Failure(true), j)
    || Fails(log[..j + 1], log[j].id) >= maxRetries
  }

  /** A recorded failure is final exactly for those reasons. */
  ghost predicate Decided(s: State, j: nat)
    requires j < |s.log|
  {
    var e := s.log[j];
    e.MarkedFailed? ==> e.id in s.rows && (e.finalFail <==> GivesUp(s.log, j, s.rows[e.id].maxRetries))
  }

  ghost predicate AllDecided(s: State) {
    forall j | 0 <= j < |s.log| :: Decided(s, j)
  }

  // ---------------------------------------------------------------------------------------------------------
  // The past stays decided
  // ---------------------------------------------------------------------------------------------------------

  lemma EndedBefore(log: seq<Entry>, log': seq<Entry>, id: Id, token: Token, outcome: Outcome, j: nat)
    requires log <= log' && j <= |log|
    ensures Ended(log', id, token, outcome, j) <==> Ended(log, id, token, outcome, j)
  {
    assert forall i | 0 <= i < |log| :: log'[i] == log[i];
    forall i | 0 <= i < j ensures GrantedBefore(log', id, token, i) <==> GrantedBefore(log, id, token, i) {
    }
  }

  lemma DecidedStays(s: State, s': State)
    requires AllDecided(s) && s.log <= s'.log
    requires forall id | id in s.rows :: id in s'.rows && s'.rows[id].maxRetries == s.rows[id].maxRetries
    requires forall j | |s.log| <= j < |s'.log| :: Decided(s', j)
    ensures AllDecided(s')
  {
    hide Ended, Fails;
    forall j | 0 <= j < |s.log| ensures Decided(s', j) {
      assert Decided(s, j);
      assert s'.log[j] == s.log[j] && s'.log[..j + 1] == s.log[..j + 1];
      if s.log[j].MarkedFailed? {
        EndedBefore(s.log, s'.log, s.log[j].id, s.log[j].token, Failure(true), j);
      }
    }
  }

  /** Entries that end no publish change nothing about the tokens' ends. */
  lemma SameEnds(log: seq<Entry>, log': seq<Entry>, token: Token, outcome: Outcome)
    requires log <= log' && forall k | |log| <= k < |log'| :: !(log'[k].PublishEnded? && log'[k].token == token)
    ensures NoEnd(log', token) <==> NoEnd(log, token)
    ensures EndsAre(log', token, outcome) <==> EndsAre(log, token, outcome)
  {
    assert forall k | 0 <= k < |log| :: log'[k] == log[k];
  }

  // ---------------------------------------------------------------------------------------------------------
  // Steps
  // ---------------------------------------------------------------------------------------------------------

  lemma StepRows(c: Config, s: State, a: Action)
    requires Safe(c, s) && Enabled(c, s, a)
    ensures forall id | id in s.rows ::
              id in Apply(c, s, a).rows && Apply(c, s, a).rows[id].maxRetries == s.rows[id].maxRetries
  {
    hide Safe, Apply, Enabled;
    forall id | id in s.rows
      ensures id in Apply(c, s, a).rows && Apply(c, s, a).rows[id].maxRetries == s.rows[id].maxRetries
    {
      LeaseSafety.StepEvolves(c, s, a, id);
    }
  }

  lemma FetchDecides(c: Config, s: State, a: Action)
    requires Safe(c, s) && LogOk(c, s) && PublishesOnce(s) && AllDecided(s) && a.Fetch? && Enabled(c, s, a)
    ensures PublishesOnce(Apply(c, s, a)) && AllDecided(Apply(c, s, a))
  {
    var s0, s' := Opened(s, a.w, a.at), Apply(c, s, a);
    StepRows(c, s, a);
    GrantAllEffect(c, s0, a.w, a.at, a.picks);
    hide Safe, Apply, Enabled, GrantAll, GrantableAll, LeasesDisjoint, Marks, GrantedBefore;
    DecidedStays(s, s');
    forall w: nat, i: nat | Holds(s', w, i)
      ensures var wk := s'.workers[w];
              if i == wk.pos && wk.phase.Returned? then EndsAre(s'.log, wk.items[i].token, wk.phase.outcome)
              else NoEnd(s'.log, wk.items[i].token)
    {
      var token := s'.workers[w].items[i].token;
      if w == a.w {
        forall k | 0 <= k < |s'.log| && s'.log[k].PublishEnded? ensures s'.log[k].token != token {
          assert k < |s.log| && s'.log[k] == s.log[k];
          assert EntryOk(s, s.log[k]);
        }
      } else {
        assert Holds(s, w, i);
        SameEnds(s.log, s'.log, token,
                 if s.workers[w].phase.Returned? then s.workers[w].phase.outcome else Success);
      }
    }
  }

  /** The worker's steps between the ends and the marks, and the environment's. */
  lemma QuietDecides(c: Config, s: State, a: Action)
    requires Safe(c, s) && PublishesOnce(s) && AllDecided(s) && Enabled(c, s, a)
    requires !a.Fetch? && !a.End? && !a.Mark?
    ensures PublishesOnce(Apply(c, s, a)) && AllDecided(Apply(c, s, a))
  {
    var s' := Apply(c, s, a);
    StepRows(c, s, a);
    hide Safe;
    DecidedStays(s, s');
    forall w: nat, i: nat | Holds(s', w, i)
      ensures var wk := s'.workers[w];
              if i == wk.pos && wk.phase.Returned? then EndsAre(s'.log, wk.items[i].token, wk.phase.outcome)
              else NoEnd(s'.log, wk.items[i].token)
    {
      assert Holds(s, w, i) && s.workers[w].items == s'.workers[w].items;
    }
  }

  lemma EndDecides(c: Config, s: State, a: Action)
    requires Safe(c, s) && PublishesOnce(s) && AllDecided(s) && a.End? && Enabled(c, s, a)
    ensures PublishesOnce(Apply(c, s, a)) && AllDecided(Apply(c, s, a))
  {
    var s' := Apply(c, s, a);
    StepRows(c, s, a);
    hide RowOk, WorkerOk, IssuedOk, SnapshotOrStale;
    DecidedStays(s, s');
    assert Holds(s, a.w, s.workers[a.w].pos);
    forall w: nat, i: nat | Holds(s', w, i)
      ensures var wk := s'.workers[w];
              if i == wk.pos && wk.phase.Returned? then EndsAre(s'.log, wk.items[i].token, wk.phase.outcome)
              else NoEnd(s'.log, wk.items[i].token)
    {
      assert Holds(s, w, i) && IsSlot(s, w, i) && IsSlot(s, a.w, s.workers[a.w].pos);
    }
  }

  /** The new entry is decided by the outcome the worker holds and by the failures on record. */
  lemma MarkDecided(c: Config, s: State, a: Action, e: Entry)
    requires a.Mark? && Enabled(c, s, a)
    requires var item := Current(s, a.w);
             && Matches(s.rows, item.id, item.token)
             && e == MarkEntry(item, s.workers[a.w].phase.outcome, a.failedAt, a.failedAt + a.backoff)
    requires e.MarkedFailed? && Safe(c, s) && Booked(c, s) && PublishesOnce(s)
    ensures var log' := s.log + [e];
            log'[|s.log|] == e && (e.finalFail <==> GivesUp(log', |s.log|, s.rows[e.id].maxRetries))
  {
    hide Safe, Booked, PublishesOnce, Fails, Ended, GivesUp;
    var item := Current(s, a.w);
    BackoffRuns.SnapshotCounts(c, s, a.w);
    HeldEnd(c, s, a.w);
    hide Enabled, Matches;
    EntryDecided(s.log, e, item, s.workers[a.w].phase.outcome, a.failedAt, a.failedAt + a.backoff);
  }

  lemma HeldEnd(c: Config, s: State, w: nat)
    requires Booked(c, s) && PublishesOnce(s) && AtItem(s, w) && s.workers[w].phase.Returned?
    ensures var item, outcome := Current(s, w), s.workers[w].phase.outcome;
            EndsAre(s.log, item.token, outcome) && Ended(s.log, item.id, item.token, outcome, |s.log|)
  {
    hide RowLedger, LogOk, EndsAre, Ended;
    assert WorkerLedger(s, s.workers[w]);
    assert Holds(s, w, s.workers[w].pos);
  }

  lemma EntryDecided(log: seq<Entry>, e: Entry, item: Item, outcome: Outcome, failedAt: Time, nextRetry: Time)
    requires e == MarkEntry(item, outcome, failedAt, nextRetry) && e.MarkedFailed?
    requires item.retryCount == Fails(log, item.id)
    requires EndsAre(log, item.token, outcome) && Ended(log, item.id, item.token, outcome, |log|)
    ensures var log' := log + [e];
            log'[|log|] == e && (e.finalFail <==> GivesUp(log', |log|, item.maxRetries))
  {
    hide Fails, Ended, EndsAre;
    var log' := log + [e];
    Appended(log, e, item.id, {});
    assert log'[..|log| + 1] == log';
    EndedBefore(log, log', item.id, item.token, Failure(true), |log|);
    OneEnd(log, item.id, item.token, outcome);
  }

  /** Of the outcomes a token may have, it has the one all its ends have. */
  lemma OneEnd(log: seq<Entry>, id: Id, token: Token, outcome: Outcome)
    requires EndsAre(log, token, outcome) && Ended(log, id, token, outcome, |log|)
    ensures Ended(log, id, token, Failure(true), |log|) <==> outcome == Failure(true)
  {
  }

  lemma MarkDecides(c: Config, s: State, a: Action)
    requires Safe(c, s) && Booked(c, s) && PublishesOnce(s) && AllDecided(s) && a.Mark? && Enabled(c, s, a)
    ensures PublishesOnce(Apply(c, s, a)) && AllDecided(Apply(c, s, a))
  {
    hide Safe, Booked, PublishesOnce, AllDecided, Decided, FinalFail, MarkedRow;
    var s', item := Apply(c, s, a), Current(s, a.w);
    StepRows(c, s, a);
    MarkOnce(c, s, a);
    if Matches(s.rows, item.id, item.token) && !a.reply.Refused? {
      var e := MarkEntry(item, s.workers[a.w].phase.outcome, a.failedAt, a.failedAt + a.backoff);
      if e.MarkedFailed? {
        MarkDecided(c, s, a, e);
      }
      NewEntry(s, s', e);
    }
    DecidedStays(s, s');
  }

  lemma NewEntry(s: State, s': State, e: Entry)
    requires s'.log == s.log + [e]
    requires e.MarkedFailed? ==>
               && e.id in s.rows && e.id in s'.rows && s'.rows[e.id].maxRetries == s.rows[e.id].maxRetries
               && s'.log[|s.log|] == e && (e.finalFail <==> GivesUp(s'.log, |s.log|, s.rows[e.id].maxRetries))
    ensures forall j | |s.log| <= j < |s'.log| :: Decided(s', j)
  {
    hide GivesUp;
    assert s'.log[|s.log|] == e;
  }

  lemma MarkOnce(c: Config, s: State, a: Action)
    requires PublishesOnce(s) && a.Mark? && Enabled(c, s, a)
    ensures PublishesOnce(Apply(c, s, a))
  {
    hide FinalFail, MarkedRow, Matches;
    var s' := Apply(c, s, a);
    assert forall k | |s.log| <= k < |s'.log| :: !s'.log[k].PublishEnded?;
    hide ApplyMark, Enabled;
    forall w: nat, i: nat | Holds(s', w, i)
      ensures var wk := s'.workers[w];
              if i == wk.pos && wk.phase.Returned? then EndsAre(s'.log, wk.items[i].token, wk.phase.outcome)
              else NoEnd(s'.log, wk.items[i].token)
    {
      HeldAfterMark(c, s, a, w, i);
      SameEnds(s.log, s'.log, s'.workers[w].items[i].token,
               if s'.workers[w].phase.Returned? then s'.workers[w].phase.outcome else Success);
    }
  }

  lemma HeldAfterMark(c: Config, s: State, a: Action, w: nat, i: nat)
    requires a.Mark? && Enabled(c, s, a) && Holds(Apply(c, s, a), w, i)
    ensures var s' := Apply(c, s, a);
            && s.log <= s'.log && Holds(s, w, i) && s.workers[w].items == s'.workers[w].items
            && (w == a.w ==> i > s.workers[w].pos && s'.workers[w].phase.Ready?)
            && (w != a.w ==> s'.workers[w] == s.workers[w])
  {
  }

  lemma {:induction false} RunDecided(c: Config, s: State, acts: seq<Action>)
    requires Safe(c, s) && Booked(c, s) && PublishesOnce(s) && AllDecided(s) && ValidRun(c, s, acts)
    ensures PublishesOnce(Exec(c, s, acts)) && AllDecided(Exec(c, s, acts))
    decreases |acts|
  {
    hide Safe, PublishesOnce, AllDecided, Apply, Enabled, RowLedger, WorkerLedger;
    if acts != [] {
      var a := acts[0];
      if a.Fetch? {
        FetchDecides(c, s, a);
      } else if a.End? {
        EndDecides(c, s, a);
      } else if a.Mark? {
        MarkDecides(c, s, a);
      } else {
        QuietDecides(c, s, a);
      }
      StepSafe(c, s, a);
      StepBooked(c, s, a);
      RunDecided(c, Apply(c, s, a), acts[1..]);
    }
  }

  // ---------------------------------------------------------------------------------------------------------
  // Dead letters
  // ---------------------------------------------------------------------------------------------------------

  /** A failure recorded for this event gave it up, and rightly so. */
  ghost predicate GivenUp(s: State, id: Id)
    requires id in s.rows
  {
    exists j | 0 <= j < |s.log| ::
      s.log[j].MarkedFailed? && s.log[j].id == id && GivesUp(s.log, j, s.rows[id].maxRetries)
  }

  lemma DeadRow(c: Config, s: State, id: Id)
    requires Safe(c, s) && Booked(c, s) && AllDecided(s) && id in s.rows
    ensures s.rows[id].status.DeadLetter? <==> GivenUp(s, id)
  {
    hide Fails, Marks, LeasesOver, RetryJustified, SlotsUnique, SnapshotOrStale, WorkerLedger, WorkerOk, IssuedOk,
         LogOk, GivesUp, Ended;
    assert RowLedger(c, s, id) && RowOk(c, s, id, s.rows[id]);
    Duplicates.TerminalsAre(s.log, id);
    if s.rows[id].status.DeadLetter? {
      assert DeadProof(s.log, id, s.rows[id]);
      var j :| 0 <= j < |s.log| && s.log[j].MarkedFailed? && s.log[j].id == id && s.log[j].finalFail;
      assert Decided(s, j);
    }
    if GivenUp(s, id) {
      var j :| 0 <= j < |s.log| && s.log[j].MarkedFailed? && s.log[j].id == id
               && GivesUp(s.log, j, s.rows[id].maxRetries);
      assert Decided(s, j);
    }
  }

  /**
   * In every run a recorded failure is final if and only if its publish, leased under the same token, ended with a
   * permanent error or it is the max_retries-th failure on record or a later one; and a row is DEAD_LETTER if and only
   * if such a failure was recorded for it.
   */
  lemma DeadExactly(c: Config, start: Time, n: nat, acts: seq<Action>, id: Id)
    requires ValidRun(c, Init(start, n), acts) && id in Exec(c, Init(start, n), acts).rows
    ensures var s := Exec(c, Init(start, n), acts);
            && (s.rows[id].status.DeadLetter? <==> GivenUp(s, id))
            && forall j | 0 <= j < |s.log| && s.log[j].MarkedFailed? && s.log[j].id == id ::
                 s.log[j].finalFail
                 <==> || Ended(s.log, id, s.log[j].token, Failure(true), j)
                      || Fails(s.log[..j + 1], id) >= s.rows[id].maxRetries
  {
    hide Safe, Booked, Fails, Ended, GivenUp;
    var s := Exec(c, Init(start, n), acts);
    InitSafe(c, start, n);
    InitBooked(c, start, n);
    RunDecided(c, Init(start, n), acts);
    RunSafe(c, Init(start, n), acts);
    RunBooked(c, Init(start, n), acts);
    DeadRow(c, s, id);
    forall j | 0 <= j < |s.log| && s.log[j].MarkedFailed? && s.log[j].id == id
      ensures s.log[j].finalFail
              <==> || Ended(s.log, id, s.log[j].token, Failure(true), j)
                   || Fails(s.log[..j + 1], id) >= s.rows[id].maxRetries
    {
      assert Decided(s, j);
    }
  }
}
