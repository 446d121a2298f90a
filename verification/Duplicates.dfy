/**
 * How often an event is delivered: every successful publish is either the one that was recorded, or one whose record
 * was lost with a crash, refused by the database or fenced out after the lease, or is just about to be recorded.
 */
module Duplicates {
  import opened OutboxTypes
  import opened LeaseProtocol
  import opened Ledger
  import opened LeaseSafety
  import opened Batches

  /** How often publishing the event has succeeded. */
  function Successes(log: seq<Entry>, id: Id): nat {
    if log == [] then 0
    else
      var e := log[|log| - 1];
      Successes(log[..|log| - 1], id) + if e.PublishEnded? && e.id == id && e.outcome == Success then 1 else 0
  }

  /** How often a success was recorded. */
  function Recorded(log: seq<Entry>, id: Id): nat {
    if log == [] then 0
    else
      var e := log[|log| - 1];
      Recorded(log[..|log| - 1], id) + if e.MarkedPublished? && e.id == id then 1 else 0
  }

  /** The worker has published the event and has not marked it yet. */
  predicate IsWaiting(wk: Worker, id: Id) {
    wk.Busy? && wk.pos < |wk.items| && wk.phase == Returned(Success) && wk.items[wk.pos].id == id
  }

  function Waiting(workers: seq<Worker>, id: Id): nat {
    if workers == [] then 0 else (if IsWaiting(workers[0], id) then 1 else 0) + Waiting(workers[1..], id)
  }

  /** A success that goes unrecorded: the worker crashes, or its mark is refused or finds the lease taken over. */
  predicate Loses(s: State, a: Action, id: Id) {
    && (a.Mark? || a.Crash?) && a.w < |s.workers| && IsWaiting(s.workers[a.w], id)
    && (a.Mark? ==> a.reply.Refused? || !Matches(s.rows, id, Current(s, a.w).token))
  }

  function Losses(c: Config, s: State, acts: seq<Action>, id: Id): nat
    requires ValidRun(c, s, acts)
    decreases |acts|
  {
    if acts == [] then 0
    else (if Loses(s, acts[0], id) then 1 else 0) + Losses(c, Apply(c, s, acts[0]), acts[1..], id)
  }

  lemma CountsAppend(log: seq<Entry>, e: Entry, id: Id)
    ensures Successes(log + [e], id)
            == Successes(log, id) + if e.PublishEnded? && e.id == id && e.outcome == Success then 1 else 0
    ensures Recorded(log + [e], id) == Recorded(log, id) + if e.MarkedPublished? && e.id == id then 1 else 0
  {
    assert (log + [e])[..|log|] == log;
  }

  lemma {:induction false} WaitingUpdate(workers: seq<Worker>, w: nat, wk: Worker, id: Id)
    requires w < |workers|
    ensures Waiting(workers[w := wk], id) + (if IsWaiting(workers[w], id) then 1 else 0)
            == Waiting(workers, id) + if IsWaiting(wk, id) then 1 else 0
  {
    if w == 0 {
      assert workers[0 := wk][1..] == workers[1..];
    } else {
      assert workers[w := wk][1..] == workers[1..][w - 1 := wk];
      WaitingUpdate(workers[1..], w - 1, wk, id);
    }
  }

  lemma {:induction false} NobodyWaits(workers: seq<Worker>, id: Id)
    requires forall w | 0 <= w < |workers| :: workers[w].Idle?
    ensures Waiting(workers, id) == 0
  {
    if workers != [] {
      NobodyWaits(workers[1..], id);
    }
  }

  lemma {:induction false} GrantAllCounts(c: Config, s: State, w: nat, at: Time, picks: seq<Pick>, id: Id)
    requires GrantableAll(c, s, w, at, picks)
    ensures var log := GrantAll(c, s, w, at, picks).log;
            Successes(log, id) == Successes(s.log, id) && Recorded(log, id) == Recorded(s.log, id)
    decreases |picks|
  {
    hide Eligible, LeasedRow, LeaseItem, Successes, Recorded;
    if picks != [] {
      CountsAppend(s.log, LeaseGranted(picks[0].id, picks[0].token, at), id);
      GrantAllCounts(c, Grant(c, s, w, at, picks[0]), w, at, picks[1..], id);
    }
  }

  /** What the step adds to both sides of the account. */
  ghost predicate Balanced(s: State, s': State, lost: bool, id: Id) {
    Successes(s'.log, id) + Recorded(s.log, id) + Waiting(s.workers, id)
    == Successes(s.log, id) + Recorded(s'.log, id) + Waiting(s'.workers, id) + if lost then 1 else 0
  }

  lemma FetchBalanced(c: Config, s: State, a: Action, id: Id)
    requires a.Fetch? && Enabled(c, s, a)
    ensures Balanced(s, Apply(c, s, a), false, id)
  {
    var s0, s' := Opened(s, a.w, a.at), Apply(c, s, a);
    GrantAllCounts(c, s0, a.w, a.at, a.picks, id);
    GrantAllEffect(c, s0, a.w, a.at, a.picks);
    hide GrantAll, GrantableAll;
    assert s'.workers == s.workers[a.w := s'.workers[a.w]];
    WaitingUpdate(s.workers, a.w, s'.workers[a.w], id);
  }

  lemma MarkBalanced(c: Config, s: State, a: Action, id: Id)
    requires a.Mark? && Enabled(c, s, a)
    ensures Balanced(s, Apply(c, s, a), Loses(s, a, id), id)
  {
    hide Successes, Recorded, Waiting, FinalFail, PublishedRow, FailedRow, MarkedRow;
    var s' := Apply(c, s, a);
    CountsAppend(s.log, MarkEntry(Current(s, a.w), s.workers[a.w].phase.outcome, a.failedAt, a.failedAt + a.backoff),
                 id);
    assert s'.workers == s.workers[a.w := s'.workers[a.w]];
    WaitingUpdate(s.workers, a.w, s'.workers[a.w], id);
  }

  lemma StepBalanced(c: Config, s: State, a: Action, id: Id)
    requires Enabled(c, s, a)
    ensures Balanced(s, Apply(c, s, a), Loses(s, a, id), id)
  {
    var s' := Apply(c, s, a);
    if a.Fetch? {
      FetchBalanced(c, s, a, id);
    } else if a.Mark? {
      MarkBalanced(c, s, a, id);
    } else if a.Insert? {
      CountsAppend(s.log, Inserted(a.id, a.nextRetryAt), id);
    } else if !a.Tick? {
      if a.End? {
        CountsAppend(s.log, PublishEnded(Current(s, a.w).id, Current(s, a.w).token, a.outcome, s.now), id);
      }
      assert s'.workers == s.workers[a.w := s'.workers[a.w]];
      WaitingUpdate(s.workers, a.w, s'.workers[a.w], id);
    }
  }

  /** Conservation: over any run, what the successes gain is recorded, lost or still to be recorded. */
  lemma {:induction false} RunBalanced(c: Config, s: State, acts: seq<Action>, id: Id)
    requires ValidRun(c, s, acts)
    ensures var s' := Exec(c, s, acts);
            Successes(s'.log, id) + Recorded(s.log, id) + Waiting(s.workers, id)
            == Successes(s.log, id) + Recorded(s'.log, id) + Waiting(s'.workers, id) + Losses(c, s, acts, id)
    decreases |acts|
  {
    hide Apply, Enabled, Loses, Successes, Recorded, Waiting;
    if acts != [] {
      StepBalanced(c, s, acts[0], id);
      RunBalanced(c, Apply(c, s, acts[0]), acts[1..], id);
    }
  }

  /** How often the event was given up. */
  function Deaths(log: seq<Entry>, id: Id): nat {
    if log == [] then 0
    else
      var e := log[|log| - 1];
      Deaths(log[..|log| - 1], id) + if e.MarkedFailed? && e.id == id && e.finalFail then 1 else 0
  }

  lemma {:induction false} TerminalsAre(log: seq<Entry>, id: Id)
    ensures Terminals(log, id) == Recorded(log, id) + Deaths(log, id)
    ensures (exists j | 0 <= j < |log| :: log[j].MarkedPublished? && log[j].id == id) ==> Recorded(log, id) > 0
    ensures (exists j | 0 <= j < |log| :: log[j].MarkedFailed? && log[j].id == id && log[j].finalFail)
            ==> Deaths(log, id) > 0
  {
    if log != [] {
      var front := log[..|log| - 1];
      TerminalsAre(front, id);
      assert forall j | 0 <= j < |front| :: front[j] == log[j];
    }
  }

  /** A success is recorded once, and exactly for PUBLISHED rows. */
  lemma RecordedRow(c: Config, s: State, id: Id)
    requires Safe(c, s) && Booked(c, s)
    ensures Recorded(s.log, id) <= 1
    ensures Recorded(s.log, id) == 1 <==> id in s.rows && s.rows[id].status.Published?
  {
    hide Fails, Marks, LeasesOver, RetryJustified, SlotsUnique, SnapshotOrStale, WorkerLedger, WorkerOk,
         LeasesDisjoint, Recorded;
    TerminalsAre(s.log, id);
    if id in s.rows {
      assert RowLedger(c, s, id) && RowOk(c, s, id, s.rows[id]);
    } else {
      assert forall k | 0 <= k < |s.log| :: EntryOk(s, s.log[k]);
      NoEntryNoCount(s.log, id);
    }
  }

  /**
   * In every run, an event's successful publishes are exactly the recorded one, of which there is at most one, those
   * whose record was lost, and those about to be recorded. So it is delivered twice only after a crash, a refused mark
   * or a mark fenced out by another lease.
   */
  lemma DeliveriesAccounted(c: Config, start: Time, n: nat, acts: seq<Action>, id: Id)
    requires ValidRun(c, Init(start, n), acts)
    ensures var s := Exec(c, Init(start, n), acts);
            && Successes(s.log, id) == Recorded(s.log, id) + Losses(c, Init(start, n), acts, id)
               + Waiting(s.workers, id)
            && Recorded(s.log, id) <= 1
            && (Recorded(s.log, id) == 1 <==> id in s.rows && s.rows[id].status.Published?)
  {
    hide Safe, Booked, Losses, Waiting, Successes, Recorded;
    var s := Exec(c, Init(start, n), acts);
    RunBalanced(c, Init(start, n), acts, id);
    NobodyWaits(Init(start, n).workers, id);
    NothingYet(id);
    ReachableBooked(c, start, n, acts);
    RecordedRow(c, s, id);
  }

  lemma NothingYet(id: Id)
    ensures Successes([], id) == 0 && Recorded([], id) == 0
  {
  }
}
