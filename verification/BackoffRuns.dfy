/**
 * The delays of one event over a whole run: drawn by the relays as they go, they stay within the bounds of the backoff.
 */
module BackoffRuns {
  import opened OutboxTypes
  import opened LeaseProtocol
  import opened Ledger
  import Backoff
  import Relay

  /** The delays recorded with the failures of one event, oldest first. */
  function Delays(log: seq<Entry>, id: Id): seq<int> {
    if log == [] then []
    else
      var e := log[|log| - 1];
      Delays(log[..|log| - 1], id) + if e.MarkedFailed? && e.id == id then [e.nextRetryAt - e.failedAt] else []
  }

  lemma DelaysAppend(log: seq<Entry>, e: Entry, id: Id)
    ensures Delays(log + [e], id)
            == Delays(log, id) + if e.MarkedFailed? && e.id == id then [e.nextRetryAt - e.failedAt] else []
  {
    assert (log + [e])[..|log|] == log;
  }

  lemma {:induction false} DelayCount(log: seq<Entry>, id: Id)
    ensures |Delays(log, id)| == Fails(log, id)
  {
    if log != [] {
      DelayCount(log[..|log| - 1], id);
    }
  }

  /** The delay of a mark is one the backoff may draw for the failures the worker's snapshot counts. */
  ghost predicate Drawn(s: State, a: Action, base: Backoff.int64, max: Backoff.int64) {
    a.Mark? && AtItem(s, a.w) ==>
      var attempt := Current(s, a.w).retryCount;
      0 <= attempt <= 0x7fff_ffff ==> a.backoff <= Relay.LongestDelay(attempt, base as int, max as int)
  }

  ghost predicate DrawnRun(c: Config, s: State, acts: seq<Action>, base: Backoff.int64, max: Backoff.int64)
    requires ValidRun(c, s, acts)
    decreases |acts|
  {
    acts == [] || (Drawn(s, acts[0], base, max) && DrawnRun(c, Apply(c, s, acts[0]), acts[1..], base, max))
  }

  /** The k-th recorded delay of the event is one the backoff may draw for the k-th failure. */
  ghost predicate InBounds(log: seq<Entry>, id: Id, base: Backoff.int64, max: Backoff.int64) {
    var delays := Delays(log, id);
    && |delays| <= 0x7fff_ffff
    && forall k | 0 <= k < |delays| :: 0 <= delays[k] <= Relay.LongestDelay(k, base as int, max as int)
  }

  lemma {:induction false} GrantAllDelays(c: Config, s: State, w: nat, at: Time, picks: seq<Pick>, id: Id)
    requires GrantableAll(c, s, w, at, picks)
    ensures Delays(GrantAll(c, s, w, at, picks).log, id) == Delays(s.log, id)
    decreases |picks|
  {
    if picks != [] {
      DelaysAppend(s.log, LeaseGranted(picks[0].id, picks[0].token, at), id);
      GrantAllDelays(c, Grant(c, s, w, at, picks[0]), w, at, picks[1..], id);
    }
  }

  /** A worker whose lease still holds knows how many failures are on record. */
  lemma SnapshotCounts(c: Config, s: State, w: nat)
    requires Safe(c, s) && Booked(c, s) && AtItem(s, w) && Matches(s.rows, Current(s, w).id, Current(s, w).token)
    ensures var item := Current(s, w);
            && item.retryCount == Fails(s.log, item.id) && 0 <= item.retryCount < 0x7fff_ffff
            && item.maxRetries == s.rows[item.id].maxRetries
  {
    hide SlotsUnique, SnapshotOrStale, LogOk, WorkerLedger, Fails;
    var item := Current(s, w);
    assert RowLedger(c, s, item.id) && RowOk(c, s, item.id, s.rows[item.id]);
    assert WorkerOk(c, s, s.workers[w]) && ItemOk(c, s, s.workers[w], item);
  }

  lemma OneMoreDelay(log: seq<Entry>, e: Entry, id: Id, base: Backoff.int64, max: Backoff.int64)
    requires InBounds(log, id, base, max)
    requires e.MarkedFailed? && e.id == id ==>
               && Fails(log, id) < 0x7fff_ffff
               && 0 <= e.nextRetryAt - e.failedAt <= Relay.LongestDelay(Fails(log, id), base as int, max as int)
    ensures InBounds(log + [e], id, base, max)
  {
    hide Relay.LongestDelay, Fails, Delays;
    DelaysAppend(log, e, id);
    DelayCount(log, id);
  }

  /** A recorded failure adds the delay drawn for as many failures as are on record. */
  lemma MarkInBounds(c: Config, s: State, a: Action, id: Id, base: Backoff.int64, max: Backoff.int64)
    requires Safe(c, s) && Booked(c, s) && a.Mark? && Enabled(c, s, a)
    requires Drawn(s, a, base, max) && InBounds(s.log, id, base, max)
    ensures InBounds(Apply(c, s, a).log, id, base, max)
  {
    hide Safe, Booked, InBounds, Relay.LongestDelay;
    var item, outcome := Current(s, a.w), s.workers[a.w].phase.outcome;
    if Matches(s.rows, item.id, item.token) && !a.reply.Refused? {
      SnapshotCounts(c, s, a.w);
      OneMoreDelay(s.log, MarkEntry(item, outcome, a.failedAt, a.failedAt + a.backoff), id, base, max);
    }
  }

  lemma StepInBounds(c: Config, s: State, a: Action, id: Id, base: Backoff.int64, max: Backoff.int64)
    requires Safe(c, s) && Booked(c, s) && Enabled(c, s, a)
    requires Drawn(s, a, base, max) && InBounds(s.log, id, base, max)
    ensures InBounds(Apply(c, s, a).log, id, base, max)
  {
    hide Safe, Booked, InBounds;
    if a.Mark? {
      MarkInBounds(c, s, a, id, base, max);
    } else {
      OtherDelays(c, s, a, id);
      SameInBounds(s.log, Apply(c, s, a).log, id, base, max);
    }
  }

  lemma SameInBounds(log: seq<Entry>, log': seq<Entry>, id: Id, base: Backoff.int64, max: Backoff.int64)
    requires InBounds(log, id, base, max) && Delays(log', id) == Delays(log, id)
    ensures InBounds(log', id, base, max)
  {
  }

  lemma OtherDelays(c: Config, s: State, a: Action, id: Id)
    requires Enabled(c, s, a) && !a.Mark?
    ensures Delays(Apply(c, s, a).log, id) == Delays(s.log, id)
  {
    if a.Fetch? {
      GrantAllDelays(c, Opened(s, a.w, a.at), a.w, a.at, a.picks, id);
    } else if a.Insert? {
      DelaysAppend(s.log, Inserted(a.id, a.nextRetryAt), id);
    } else if a.End? {
      DelaysAppend(s.log, PublishEnded(Current(s, a.w).id, Current(s, a.w).token, a.outcome, s.now), id);
    }
  }

  lemma {:induction false} RunInBounds(c: Config, s: State, acts: seq<Action>, id: Id, base: Backoff.int64,
                                       max: Backoff.int64)
    requires Safe(c, s) && Booked(c, s) && ValidRun(c, s, acts)
    requires DrawnRun(c, s, acts, base, max) && InBounds(s.log, id, base, max)
    ensures InBounds(Exec(c, s, acts).log, id, base, max)
    decreases |acts|
  {
    hide Safe, Booked, InBounds, Drawn;
    if acts != [] {
      StepSafe(c, s, acts[0]);
      StepBooked(c, s, acts[0]);
      StepInBounds(c, s, acts[0], id, base, max);
      RunInBounds(c, Apply(c, s, acts[0]), acts[1..], id, base, max);
    }
  }

  /**
   * In every run whose delays the backoff drew, whoever drew them, the first k delays of an event add up to at most
   * base * (2^k - 1) and to at most k times the largest delay; without a base there is no delay at all.
   */
  lemma RunBackoff(c: Config, start: Time, n: nat, acts: seq<Action>, id: Id, base: Backoff.int64, max: Backoff.int64,
                   k: nat)
    requires ValidRun(c, Init(start, n), acts) && DrawnRun(c, Init(start, n), acts, base, max)
    requires k <= |Delays(Exec(c, Init(start, n), acts).log, id)|
    ensures var total := Backoff.Sum(Delays(Exec(c, Init(start, n), acts).log, id)[..k]);
            && 0 <= total <= k * Relay.DelayCap(base as int, max as int)
            && (0 < base ==> total <= base as int * (Backoff.Pow2(k) - 1))
            && (base <= 0 ==> total == 0)
  {
    hide Safe, Booked, DrawnRun, Delays;
    InitSafe(c, start, n);
    InitBooked(c, start, n);
    NothingInBounds(id, base, max);
    RunInBounds(c, Init(start, n), acts, id, base, max);
    PrefixTotal(Exec(c, Init(start, n), acts).log, id, base, max, k);
  }

  lemma NothingInBounds(id: Id, base: Backoff.int64, max: Backoff.int64)
    ensures InBounds([], id, base, max)
  {
  }

  lemma PrefixTotal(log: seq<Entry>, id: Id, base: Backoff.int64, max: Backoff.int64, k: nat)
    requires InBounds(log, id, base, max) && k <= |Delays(log, id)|
    ensures var total := Backoff.Sum(Delays(log, id)[..k]);
            && 0 <= total <= k * Relay.DelayCap(base as int, max as int)
            && (0 < base ==> total <= base as int * (Backoff.Pow2(k) - 1))
            && (base <= 0 ==> total == 0)
  {
    hide Delays, Backoff.Ceiling, Backoff.Sum, Backoff.Pow2;
    var delays := Delays(log, id)[..k];
    if 0 < base {
      forall i | 0 <= i < k
        ensures 0 <= delays[i] <= Backoff.Ceiling(i as Backoff.int64, base, Relay.MaxDelay(base, max)) as int
      {
        Relay.LongestExactly(i as Backoff.int64, base, max);
      }
      Relay.LongestExactly(0, base, max);
      Backoff.TotalBackoff(delays, base, Relay.MaxDelay(base, max));
    } else {
      NoDelay(delays);
      Positive(k, Relay.DelayCap(base as int, max as int));
    }
  }

  lemma Positive(k: nat, m: nat)
    ensures 0 <= k * m
  {
  }

  lemma {:induction false} NoDelay(delays: seq<int>)
    requires forall k | 0 <= k < |delays| :: delays[k] == 0
    ensures Backoff.Sum(delays) == 0
  {
    if delays != [] {
      NoDelay(delays[..|delays| - 1]);
    }
  }
}
