/**
 * The relay's own code. ProcessBatch, its failure handling and the drain loop run against the store while other workers
 * and the environment take protocol steps in between; every call is shown to be a sequence of protocol steps.
 */
module Relay {
  import opened Options
  import opened OutboxTypes
  import opened LeaseProtocol
  import opened Ledger
  import opened LeaseSafety
  import opened OutboxStore
  import Batches
  import SkipLocked
  import SkipOrder
  import Backoff
  import NonRetryable

  // ---------------------------------------------------------------------------------------------------------
  // Configuration
  // ---------------------------------------------------------------------------------------------------------

  datatype ConfigErr = Valid | MissingStore | MissingPublisher | InvalidLeaseDuration

  /** The numeric settings; durations are in nanoseconds. */
  datatype Settings = Settings(
    batchSize: int, pollInterval: int, publishTimeout: int, leaseDuration: int,
    backoffBase: int, backoffMax: int, concurrency: int)

  function Or(value: int, fallback: int): int {
    if value <= 0 then fallback else value
  }

  predicate LeaseAccepted(s: Settings) {
    var lease := Or(s.leaseDuration, 60 * NANOS);
    MIN_LEASE <= lease && Or(s.publishTimeout, 5 * NANOS) < lease
  }

  function Defaulted(s: Settings): Settings {
    var base := Or(s.backoffBase, 2 * NANOS);
    var cap := Or(s.backoffMax, 60 * NANOS);
    Settings(Or(s.batchSize, 50), Or(s.pollInterval, NANOS), Or(s.publishTimeout, 5 * NANOS),
             Or(s.leaseDuration, 60 * NANOS), base, if cap < base then base else cap, Or(s.concurrency, 1))
  }

  /** What a relay may rely on once its configuration was accepted. */
  predicate Accepted(s: Settings) {
    && 0 < s.batchSize && 0 < s.pollInterval && 0 < s.concurrency
    && 0 < s.publishTimeout < s.leaseDuration && MIN_LEASE <= s.leaseDuration
    && 0 < s.backoffBase <= s.backoffMax
  }

  /** An accepted configuration is usable, and the settings left alone by validation are exactly the usable ones. */
  lemma DefaultedAccepted(s: Settings)
    requires LeaseAccepted(s)
    ensures Accepted(Defaulted(s))
    ensures Defaulted(s) == s <==> Accepted(s)
  {
  }

  /** RelayConfig of the source. */
  class RelayConfig {
    var batchSize: int
    var pollInterval: int
    var publishTimeout: int
    var leaseDuration: int
    var backoffBase: int
    var backoffMax: int
    var concurrency: int
    var hasStore: bool
    var hasPublisher: bool

    function Current(): Settings
      reads this
    {
      Settings(batchSize, pollInterval, publishTimeout, leaseDuration, backoffBase, backoffMax, concurrency)
    }

    /** The first half of validation, up to the check of the lease. */
    method FillTimes() returns (fits: bool)
      modifies `batchSize, `pollInterval, `publishTimeout, `leaseDuration
      ensures batchSize == Or(old(batchSize), 50) && pollInterval == Or(old(pollInterval), NANOS)
      ensures publishTimeout == Or(old(publishTimeout), 5 * NANOS)
              && leaseDuration == Or(old(leaseDuration), 60 * NANOS)
      ensures fits <==> MIN_LEASE <= leaseDuration && publishTimeout < leaseDuration
    {
      if batchSize <= 0 {
        batchSize := 50;
      }
      if pollInterval <= 0 {
        pollInterval := NANOS;
      }
      if publishTimeout <= 0 {
        publishTimeout := 5 * NANOS;
      }
      if leaseDuration <= 0 {
        leaseDuration := 60 * NANOS;
      }
      fits := !(leaseDuration < MIN_LEASE || leaseDuration <= publishTimeout);
    }

    /** The second half: backoff bounds and worker count. */
    method FillBackoff()
      modifies `backoffBase, `backoffMax, `concurrency
      ensures backoffBase == Or(old(backoffBase), 2 * NANOS) && concurrency == Or(old(concurrency), 1)
      ensures backoffMax == (var cap := Or(old(backoffMax), 60 * NANOS); if cap < backoffBase then backoffBase else cap)
    {
      if backoffBase <= 0 {
        backoffBase := 2 * NANOS;
      }
      if backoffMax <= 0 {
        backoffMax := 60 * NANOS;
      }
      if backoffMax < backoffBase {
        backoffMax := backoffBase;
      }
      if concurrency <= 0 {
        concurrency := 1;
      }
    }

    /** Fills in defaults through the pointer; a rejected configuration may be left with some of them filled in. */
    method Validate() returns (err: ConfigErr)
      modifies this
      ensures var lease := if old(leaseDuration) > 0 then old(leaseDuration) else 60_000_000_000;
              var timeout := if old(publishTimeout) > 0 then old(publishTimeout) else 5_000_000_000;
              err == (if !old(hasStore) then MissingStore else if !old(hasPublisher) then MissingPublisher
                      else if lease < 5_000_000_000 || lease <= timeout then InvalidLeaseDuration else Valid)
      ensures err.Valid? ==>
                && batchSize == (if old(batchSize) > 0 then old(batchSize) else 50)
                && pollInterval == (if old(pollInterval) > 0 then old(pollInterval) else 1_000_000_000)
                && publishTimeout == (if old(publishTimeout) > 0 then old(publishTimeout) else 5_000_000_000)
                && leaseDuration == (if old(leaseDuration) > 0 then old(leaseDuration) else 60_000_000_000)
                && backoffBase == (if old(backoffBase) > 0 then old(backoffBase) else 2_000_000_000)
                && backoffMax == (var cap := if old(backoffMax) > 0 then old(backoffMax) else 60_000_000_000;
                                  if cap < backoffBase then backoffBase else cap)
                && concurrency == (if old(concurrency) > 0 then old(concurrency) else 1)
      ensures err.Valid? ==> Current() == Defaulted(old(Current())) && Accepted(Current())
      ensures err.MissingStore? || err.MissingPublisher? ==> Current() == old(Current())
    {
      if !hasStore {
        return MissingStore;
      }
      if !hasPublisher {
        return MissingPublisher;
      }
      var fits := FillTimes();
      if !fits {
        return InvalidLeaseDuration;
      }
      FillBackoff();
      return Valid;
    }
  }

  // ---------------------------------------------------------------------------------------------------------
  // The relay
  // ---------------------------------------------------------------------------------------------------------

  /** How a publisher can behave. */
  datatype Behaviour = ReturnsNil | ReturnsErr(err: NonRetryable.Err) | Panics

  /** publishWithRecovery: a panic is formatted into a new error that wraps nothing. */
  function Recovered(b: Behaviour): NonRetryable.MaybeErr {
    match b
    case ReturnsNil => NonRetryable.NoErr
    case ReturnsErr(e) => NonRetryable.SomeErr(e)
    case Panics => NonRetryable.SomeErr(NonRetryable.Opaque("publisher panic"))
  }

  function OutcomeOf(e: NonRetryable.MaybeErr): Outcome {
    if e.NoErr? then Success else Failure(NonRetryable.IsNonRetryable(e))
  }

  /** Only a nil error is a success; a panic is a failure worth retrying, an error as permanent as what it wraps. */
  lemma RecoveredOutcome(b: Behaviour)
    ensures OutcomeOf(Recovered(b)) == Success <==> b == ReturnsNil
    ensures OutcomeOf(Recovered(Panics)) == Failure(false)
    ensures b.ReturnsErr? ==>
              OutcomeOf(Recovered(b)) == Failure(exists x :: NonRetryable.Occurs(x, b.err) && NonRetryable.Permanent(x))
  {
    if b.ReturnsErr? {
      NonRetryable.NonRetryableExactly(b.err);
    }
  }

  /** maxDelay of handlePublishFailure. */
  function MaxDelay(backoffBase: Backoff.int64, backoffMax: Backoff.int64): Backoff.int64 {
    var m: Backoff.int64 := if backoffMax <= 0 then 60_000_000_000 else backoffMax;
    if m < backoffBase then backoffBase else m
  }

  /** The largest delay there is: the configured one, or a minute, but at least the base. */
  function DelayCap(backoffBase: int, backoffMax: int): int {
    var cap := if backoffMax > 0 then backoffMax else 60_000_000_000;
    if backoffBase > cap then backoffBase else cap
  }

  /** The largest delay an event may get that has failed `attempt` times before: base * 2^min(attempt, 30), capped. */
  function LongestDelay(attempt: int, backoffBase: int, backoffMax: int): int {
    if backoffBase <= 0 then 0
    else Backoff.Min(backoffBase * Backoff.Pow2(Backoff.Exponent(attempt)), DelayCap(backoffBase, backoffMax))
  }

  /** The corrected maximum and the ceiling under it are these. */
  lemma LongestExactly(attempt: Backoff.int64, base: Backoff.int64, max: Backoff.int64)
    ensures MaxDelay(base, max) as int == DelayCap(base as int, max as int)
    ensures 0 < base ==>
              Backoff.Ceiling(attempt, base, MaxDelay(base, max)) as int
              == LongestDelay(attempt as int, base as int, max as int)
  {
    hide Backoff.Ceiling, Backoff.Pow2;
    if 0 < base {
      Backoff.CeilingExact(attempt, base, MaxDelay(base, max));
    }
  }

  /** The row still carries this lease and everything the item says. */
  ghost predicate CarriesLease(rows: map<Id, Row>, event: Item) {
    && Matches(rows, event.id, event.token)
    && rows[event.id].retryCount == event.retryCount && rows[event.id].maxRetries == event.maxRetries
  }

  /** Something in the error's tree is permanent. */
  ghost predicate Hopeless(err: NonRetryable.Err) {
    exists x :: NonRetryable.Occurs(x, err) && NonRetryable.Permanent(x)
  }

  /**
   * One failure more than the snapshot, free of the lease; dead if the error is hopeless or that was the last attempt,
   * and back to PENDING otherwise.
   */
  ghost predicate FailureRecorded(r: Row, event: Item, hopeless: bool) {
    && r.status == (if event.retryCount + 1 >= event.maxRetries || hopeless then DeadLetter else Pending)
    && r.retryCount == event.retryCount + 1 && r.maxRetries == event.maxRetries
    && r.leaseToken.None? && r.lockedUntil.None?
  }

  /** The outcome of a publish is in the row: published, or the failure recorded. */
  ghost predicate OutcomeRecorded(r: Row, event: Item, behaviour: Behaviour) {
    match behaviour
    case ReturnsNil => r.status == Published && r.leaseToken.None? && r.lockedUntil.None?
    case ReturnsErr(err) => FailureRecorded(r, event, Hopeless(err))
    case Panics => FailureRecorded(r, event, false)
  }

  /** What the recovery makes of a panic can be printed and is worth another attempt. */
  lemma RecoveredError(b: Behaviour)
    ensures b.ReturnsNil? <==> Recovered(b).NoErr?
    ensures b.ReturnsErr? ==> Recovered(b) == NonRetryable.SomeErr(b.err)
    ensures b.Panics? ==> NonRetryable.Prints(Recovered(b).err) && !Hopeless(Recovered(b).err)
  {
  }

  /**
   * What became of one event: skipped, counted, failure not recorded, success not recorded, which ends the call, or an
   * error that cannot be printed, which ends the worker.
   */
  datatype Attempted = Expired | Counted | Unrecorded | Stopped | Panicked

  /** Some mark under this token has moved its row out of PROCESSING. */
  ghost predicate Settled(log: seq<Entry>, token: Token) {
    exists k | 0 <= k < |log| :: IsMark(log[k]) && log[k].token == token
  }

  /** Every one of the first n events is settled, or its lease had run out when its turn came. */
  ghost predicate AllSettled(log: seq<Entry>, events: seq<Item>, n: nat, now: Time)
    requires n <= |events|
  {
    forall j | 0 <= j < n :: Settled(log, events[j].token) || events[j].lockedUntil <= now
  }

  lemma SettledStays(log: seq<Entry>, log': seq<Entry>, events: seq<Item>, n: nat, now: Time, now': Time)
    requires n <= |events| && AllSettled(log, events, n, now) && log <= log' && now <= now'
    ensures AllSettled(log', events, n, now')
  {
    forall j | 0 <= j < n ensures Settled(log', events[j].token) || events[j].lockedUntil <= now' {
      if Settled(log, events[j].token) {
        var k :| 0 <= k < |log| && IsMark(log[k]) && log[k].token == events[j].token;
        assert log'[k] == log[k];
      }
    }
  }

  lemma SettledMore(log: seq<Entry>, log': seq<Entry>, events: seq<Item>, i: nat, now: Time, now': Time)
    requires i < |events| && AllSettled(log, events, i, now) && log <= log' && now <= now'
    requires Settled(log', events[i].token) || events[i].lockedUntil <= now'
    ensures AllSettled(log', events, i + 1, now')
  {
    SettledStays(log, log', events, i, now, now');
  }

  /** Actions of somebody other than worker w; a closed table takes no inserts. */
  predicate ByOther(a: Action, w: nat, open: bool) {
    match a
    case Insert(_, _, _, _) => open
    case Tick(_) => true
    case Fetch(v, _, _) => v != w
    case Check(v) => v != w
    case Start(v) => v != w
    case End(v, _) => v != w
    case Mark(v, _, _, _) => v != w
    case Finish(v) => v != w
    case Crash(v) => v != w
  }

  /** The delay before the next attempt: any value up to the longest one may be drawn. */
  method NextBackoff(attempt: Backoff.int64, base: Backoff.int64, max: Backoff.int64, draw: Backoff.int64)
    returns (delay: nat)
    ensures var longest := LongestDelay(attempt as int, base as int, max as int);
            && delay <= longest <= DelayCap(base as int, max as int)
            && (0 <= draw as int <= longest && draw < Backoff.MAX_INT64 ==> delay == draw as int)
  {
    hide Backoff.Ceiling, Backoff.Pow2;
    LongestExactly(attempt, base, max);
    delay := Backoff.BackoffWithJitter(attempt, base, MaxDelay(base, max), Backoff.Drawing(draw)) as nat;
  }

  /** The result of one call of ProcessBatch, unless it panics. */
  datatype Call = Call(count: nat, failed: bool) | NoReturn

  class Relay {
    const c: Config
    const backoffBase: Backoff.int64
    const backoffMax: Backoff.int64
    const open: bool
    const store: PgStore
    var workers: seq<Worker>
    var log: seq<Entry>

    /** What the calls of ProcessBatch have returned so far. */
    ghost var calls: seq<Call>

    constructor (c: Config, backoffBase: Backoff.int64, backoffMax: Backoff.int64, open: bool, store: PgStore, n: nat)
      requires store.rows == map[] && store.issued == map[]
      requires c.lease == store.Lease() && 0 < c.limit && c.maxBackoff == MaxDelay(backoffBase, backoffMax) as int
      ensures Valid() && |workers| == n
    {
      this.c, this.backoffBase, this.backoffMax, this.open, this.store := c, backoffBase, backoffMax, open, store;
      workers, log, calls := seq(n, i => Idle), [], [];
      new;
      InitSafe(c, store.now, n);
      InitBooked(c, store.now, n);
    }

    /** The state of the whole system: the table behind the store and every worker. */
    function Sys(): State
      reads this, store
    {
      State(store.now, store.rows, workers, store.issued, log)
    }

    ghost predicate Valid()
      reads this, store
    {
      && Safe(c, Sys()) && Booked(c, Sys())
      && c.lease == store.Lease() && 0 < c.limit && c.maxBackoff == MaxDelay(backoffBase, backoffMax) as int
    }

    /** The remaining budget and the marks it has already paid for; only inserts add to it. */
    ghost function Account(): int
      reads this, store
    {
      TotalBudget(store.rows) + MarkTotal(log)
    }

    /** What any number of steps leaves true, between calls of ProcessBatch. */
    twostate predicate Continues()
      reads this, store
    {
      Progresses() && calls == old(calls)
    }

    /** What any number of steps and calls leaves true. */
    twostate predicate Progresses()
      reads this, store
    {
      && Valid()
      && store.leaseDuration == old(store.leaseDuration) && old(store.now) <= store.now
      && |workers| == old(|workers|)
      && old(log) <= log && old(MarkTotal(log)) <= MarkTotal(log)
      && (!open ==> Account() <= old(Account()))
    }

    /** One protocol step. */
    method Step(a: Action)
      requires Valid() && Enabled(c, Sys(), a) && (a.Insert? ==> open)
      modifies this, store
      ensures Continues() && Sys() == Apply(c, old(Sys()), a) && store.failures == old(store.failures)
    {
      hide Safe, Booked, Apply, Enabled, TotalBudget, MarkTotal;
      ghost var s := Sys();
      var s' := Apply(c, Sys(), a);
      StepSafe(c, s, a);
      StepBooked(c, s, a);
      StepAccount(c, s, a);
      store.now, store.rows, store.issued := s'.now, s'.rows, s'.issued;
      workers, log := s'.workers, s'.log;
    }

    /** Whatever the other workers and the environment do before this worker's next statement. */
    method Others(w: nat)
      requires Valid() && w < |workers|
      modifies this, store
      ensures Continues() && workers[w] == old(workers[w]) && store.failures == old(store.failures)
    {
      hide Safe, Booked, TotalBudget, MarkTotal, Marks;
      var left: int := *;
      while left > 0
        invariant Continues() && workers[w] == old(workers[w]) && store.failures == old(store.failures)
      {
        var a: Action := *;
        if ByOther(a, w, open) && Enabled(c, Sys(), a) {
          OthersStep(w, a);
        }
        left := left - 1;
      }
    }

    method OthersStep(w: nat, a: Action)
      requires Valid() && w < |workers| && ByOther(a, w, open) && Enabled(c, Sys(), a)
      modifies this, store
      ensures Continues() && workers[w] == old(workers[w]) && store.failures == old(store.failures)
    {
      hide Safe, Booked, TotalBudget, MarkTotal, Marks;
      OtherLeavesWorker(c, Sys(), a, w, open);
      Step(a);
    }

    /** Worker w is about to begin events[i] of this call's batch, having counted `processed` so far. */
    ghost predicate AtEvent(w: nat, events: seq<Item>, i: nat, processed: nat)
      reads this, store
    {
      && w < |workers| && workers[w].Busy?
      && workers[w].items == events && workers[w].pos == i <= |events|
      && workers[w].count == processed && (store.reliable ==> workers[w].lost == 0)
    }

    /** The events are what worker w's lease had ready to commit: an oldest batch of the rows it did not pass over. */
    ghost predicate Leased(server: SkipLocked.Server, w: nat, events: seq<Item>) {
      && SkipLocked.Complete(c, server, w)
      && Batches.OldestBatch(server.sys.rows - SkipOrder.PassedOver(server, w), server.txns[w].at, c.limit,
                             ItemIds(events))
    }

    /**
     * Lease a batch. If the answer is lost after the rows were leased, the worker has nothing and they wait for expiry.
     */
    method Fetch(w: nat, server: SkipLocked.Server) returns (events: seq<Item>, failed: bool)
      requires Valid() && w < |workers| && workers[w].Idle?
      requires SkipLocked.ServerOk(c, server) && server.sys == Sys()
      modifies this, store
      ensures Continues() && store.failures == old(store.failures) + if failed then 1 else 0
      ensures failed || events == [] ==> workers[w].Idle?
      ensures !failed && events != [] ==> AtEvent(w, events, 0, 0) && workers[w].phase.Ready? && |events| <= c.limit
      ensures forall i | 0 <= i < |events| :: events[i].token !in old(store.issued)
      ensures !failed ==> Leased(server, w, events)
    {
      hide Safe, Booked, TotalBudget, MarkTotal, Marks, Batches.OldestBatch, SkipLocked.ServerOk;
      var before := Sys();
      var reply := store.Deliver();
      var scanned: nat := *;
      var err, picks;
      events, err, picks := store.FetchPendingBatch(c.limit, c, server, w, reply, scanned);
      failed := !err.NoErr?;
      assert !failed ==> ItemIds(events) == Batches.PickIds(picks);
      if picks != [] {
        var at := server.txns[w].at;
        NotAhead(c, server, w);
        FetchIsStep(c, before, w, at, picks);
        var after := Apply(c, before, LeaseProtocol.Fetch(w, at, picks));
        workers, log := after.workers, after.log;
        assert Sys() == after;
        if failed {
          Step(Crash(w));
        }
      } else {
        assert Sys() == before;
      }
    }

    /** The check before each publish: a lease that has run out is skipped. */
    method LeaseExpired(w: nat, event: Item, ghost events: seq<Item>, i: nat, ghost processed: nat)
      returns (expired: bool)
      requires Valid() && AtEvent(w, events, i, processed) && i < |events| && event == events[i]
      requires workers[w].phase.Ready?
      modifies this, store
      ensures Continues() && store.now == old(store.now) && expired == (event.lockedUntil <= store.now)
      ensures store.failures == old(store.failures)
      ensures if expired then AtEvent(w, events, i + 1, processed) && workers[w].phase.Ready?
              else AtEvent(w, events, i, processed) && workers[w].phase.Checked?
    {
      hide Safe, Booked, TotalBudget, MarkTotal, Marks;
      expired := event.lockedUntil <= store.now;
      Step(Check(w));
    }

    /** Return from ProcessBatch, at the end of the batch or early; the marks made so far stand. */
    method Leave(w: nat, a: Action)
      requires Valid() && w < |workers| && workers[w].Busy?
      requires a == Crash(w) || (a == Finish(w) && workers[w].phase.Ready? && workers[w].pos == |workers[w].items|)
      modifies this, store
      ensures Continues() && workers[w].Idle? && log == old(log) && store.rows == old(store.rows)
      ensures store.failures == old(store.failures)
      ensures old(workers[w].count + workers[w].lost) == Marks(log, TokensOf(old(workers[w].items)))
    {
      hide Safe, Booked, TotalBudget, MarkTotal, Marks;
      LedgerOf(c, Sys(), w);
      Step(a);
    }

    /** Call the publisher, which behaves as it likes; a panic counts as an error. */
    method PublishWithRecovery(w: nat, behaviour: Behaviour, ghost events: seq<Item>, ghost i: nat,
                               ghost processed: nat)
      returns (pubErr: NonRetryable.MaybeErr)
      requires Valid() && AtEvent(w, events, i, processed) && i < |events| && workers[w].phase.Checked?
      modifies this, store
      ensures Continues() && AtEvent(w, events, i, processed) && workers[w].phase == Returned(OutcomeOf(pubErr))
      ensures store.failures == old(store.failures)
      ensures pubErr == Recovered(behaviour)
    {
      hide Safe, Booked, TotalBudget, MarkTotal, Marks;
      Step(Start(w));
      Others(w);
      pubErr := Recovered(behaviour);
      Step(End(w, OutcomeOf(pubErr)));
    }

    /** The fenced MarkPublished; without an error the event is counted, with one the call is over. */
    method MarkPublished(w: nat, event: Item, ghost events: seq<Item>, i: nat, ghost processed: nat)
      returns (err: StoreErr)
      requires Valid() && AtEvent(w, events, i, processed) && i < |events| && event == events[i]
      requires workers[w].phase == Returned(Success)
      modifies this, store
      ensures Continues() && store.failures == old(store.failures) + if err.NoErr? then 0 else 1
      ensures err.NoErr? ==>
                && AtEvent(w, events, i + 1, processed + 1) && workers[w].phase.Ready?
                && old(MarkTotal(log)) + 1 <= MarkTotal(log) && Settled(log, event.token)
      ensures err.NoErr? ==>
                && CarriesLease(old(store.rows), event)
                && store.rows
                   == old(store.rows)[event.id := old(store.rows)[event.id].(status := Published,
                        publishedAt := Some(store.now), lockedUntil := None, leaseToken := None)]
      ensures err.LeaseExpired? ==> store.rows == old(store.rows) && !Matches(store.rows, event.id, event.token)
      ensures !err.NoErr? ==>
                && workers[w].Idle?
                && old(Marks(log, TokensOf(events))) <= Marks(log, TokensOf(events))
                && (store.reliable ==> log == old(log))
    {
      hide Safe, Booked, TotalBudget, MarkTotal, Marks;
      var before := Sys();
      CurrentToken(c, before, w);
      CurrentLease(c, before, w);
      var reply := store.Deliver();
      err := store.MarkPublished(event.id, Some(event.token), reply);
      ghost var a := Mark(w, reply, before.now, 0);
      var after := ApplyMark(before, w, reply, before.now, before.now);
      MarkIsStep(c, before, a, TokensOf(events));
      workers, log := after.workers, after.log;
      assert Sys() == after;
    }

    /**
     * Record a failure: dead letter or retry is decided from the fetched snapshot, the delay from the backoff. The
     * error is printed for the record, outside the recovery around the publisher: one that cannot be printed ends the
     * worker with nothing recorded.
     */
    method HandlePublishFailure(w: nat, event: Item, pubErr: NonRetryable.MaybeErr, draw: Backoff.int64,
                                ghost events: seq<Item>, i: nat, ghost processed: nat)
      returns (err: StoreErr, panicked: bool)
      requires Valid() && AtEvent(w, events, i, processed) && i < |events| && event == events[i]
      requires pubErr.SomeErr? && workers[w].phase == Returned(OutcomeOf(pubErr))
      requires 0 <= event.retryCount <= 0x7fff_ffff
      modifies this, store
      ensures Continues() && (panicked <==> !NonRetryable.Prints(pubErr.err))
      ensures store.failures == old(store.failures) + if panicked || err.NoErr? then 0 else 1
      ensures panicked ==>
                && workers[w].Idle? && log == old(log) && store.rows == old(store.rows)
                && processed <= Marks(log, TokensOf(events))
                && (store.reliable ==> processed == Marks(log, TokensOf(events)))
      ensures !panicked ==>
                && workers[w].Busy? && workers[w].phase.Ready?
                && AtEvent(w, events, i + 1, if err.NoErr? then processed + 1 else processed)
      ensures !panicked && err.NoErr? ==>
                && old(MarkTotal(log)) + 1 <= MarkTotal(log) && Settled(log, event.token)
                && event.id in store.rows && FailureRecorded(store.rows[event.id], event, Hopeless(pubErr.err))
      ensures !panicked && err.NoErr? ==>
                var longest := LongestDelay(event.retryCount, backoffBase as int, backoffMax as int);
                var delay := store.rows[event.id].nextRetryAt - old(store.now);
                && 0 <= delay <= longest
                && (0 <= draw as int <= longest && draw < Backoff.MAX_INT64 ==> delay == draw as int)
      ensures !panicked && err.LeaseExpired? ==> !Matches(store.rows, event.id, event.token)
    {
      hide Safe, Booked, TotalBudget, MarkTotal, Marks, LongestDelay;
      err, panicked := StoreErr.NoErr, false;
      CurrentToken(c, Sys(), w);
      var newRetryCount := event.retryCount + 1;
      var isPoisonPill := NonRetryable.IsNonRetryable(pubErr);
      var finalFail := newRetryCount >= event.maxRetries || isPoisonPill;
      var backoff := NextBackoff(event.retryCount as Backoff.int64, backoffBase, backoffMax, draw);
      var failedAt := store.now;
      if !NonRetryable.Prints(pubErr.err) {
        Leave(w, Crash(w));
        panicked := true;
        return;
      }
      Others(w);
      CurrentToken(c, Sys(), w);
      err := RecordFailure(w, event, failedAt, backoff, finalFail, events, i, processed);
      NonRetryable.NonRetryableExactly(pubErr.err);
    }

    method RecordFailure(w: nat, event: Item, failedAt: Time, backoff: nat, finalFail: bool,
                         ghost events: seq<Item>, i: nat, ghost processed: nat)
      returns (err: StoreErr)
      requires Valid() && AtEvent(w, events, i, processed) && i < |events| && event == events[i]
      requires workers[w].phase.Returned? && workers[w].phase.outcome.Failure?
      requires finalFail == FinalFail(event, workers[w].phase.outcome.nonRetryable)
      requires workers[w].since <= failedAt <= store.now && backoff <= c.maxBackoff
      modifies this, store
      ensures Continues() && workers[w].Busy? && workers[w].phase.Ready?
      ensures store.failures == old(store.failures) + if err.NoErr? then 0 else 1
      ensures AtEvent(w, events, i + 1, if err.NoErr? then processed + 1 else processed)
      ensures err.NoErr? ==> old(MarkTotal(log)) + 1 <= MarkTotal(log) && Settled(log, event.token)
      ensures err.NoErr? ==>
                && CarriesLease(old(store.rows), event)
                && store.rows
                   == old(store.rows)[event.id := FailedRow(old(store.rows)[event.id], failedAt + backoff, finalFail)]
      ensures err.LeaseExpired? ==> store.rows == old(store.rows) && !Matches(store.rows, event.id, event.token)
    {
      hide Safe, Booked, TotalBudget, MarkTotal, Marks;
      CurrentLease(c, Sys(), w);
      var before := Sys();
      CurrentToken(c, before, w);
      var reply := store.Deliver();
      err := store.MarkFailed(event.id, failedAt + backoff, finalFail, Some(event.token), reply);
      ghost var a := Mark(w, reply, failedAt, backoff);
      var after := ApplyMark(before, w, reply, failedAt, failedAt + backoff);
      MarkIsStep(c, before, a, TokensOf(events));
      workers, log := after.workers, after.log;
      assert Sys() == after;
    }

    /** One event of the batch: check the lease, call the publisher, which behaves in this way, record the outcome. */
    method Attempt(w: nat, event: Item, behaviour: Behaviour, draw: Backoff.int64, ghost events: seq<Item>, i: nat,
                   ghost processed: nat)
      returns (r: Attempted)
      requires Valid() && AtEvent(w, events, i, processed) && i < |events| && event == events[i]
      requires workers[w].phase.Ready?
      modifies this, store
      ensures Continues()
      ensures r.Panicked? <==> !r.Expired? && behaviour.ReturnsErr? && !NonRetryable.Prints(behaviour.err)
      ensures !r.Stopped? && !r.Panicked? ==>
                && AtEvent(w, events, i + 1, if r.Counted? then processed + 1 else processed)
                && workers[w].Busy? && workers[w].phase.Ready?
      ensures r.Counted? ==> old(MarkTotal(log)) + 1 <= MarkTotal(log) && Settled(log, event.token)
      ensures r.Counted? ==> event.id in store.rows && OutcomeRecorded(store.rows[event.id], event, behaviour)
      ensures r.Expired? <==> event.lockedUntil <= old(store.now)
      ensures store.failures == old(store.failures) + if r.Unrecorded? || r.Stopped? then 1 else 0
      ensures r.Stopped? ==> behaviour.ReturnsNil?
      ensures r.Unrecorded? ==> !behaviour.ReturnsNil?
      ensures r.Stopped? || r.Panicked? ==>
                && workers[w].Idle? && processed <= Marks(log, TokensOf(events))
                && (store.reliable ==> processed == Marks(log, TokensOf(events)))
    {
      hide Safe, Booked, TotalBudget, MarkTotal, Marks, Settled, Ledger.TokensOf, Enabled, Apply, PgStore.Lease,
           LongestDelay, FailureRecorded, Matches, Recovered, Hopeless, NonRetryable.IsNonRetryable,
           NonRetryable.Prints;
      RecoveredError(behaviour);
      var expired := LeaseExpired(w, event, events, i, processed);
      if expired {
        return Expired;
      }
      Others(w);
      var pubErr := PublishWithRecovery(w, behaviour, events, i, processed);
      Others(w);
      if pubErr.NoErr? {
        LedgerOf(c, Sys(), w);
        var markErr := MarkPublished(w, event, events, i, processed);
        r := if markErr.NoErr? then Counted else Stopped;
      } else {
        CurrentToken(c, Sys(), w);
        var failErr, panicked := HandlePublishFailure(w, event, pubErr, draw, events, i, processed);
        r := if panicked then Panicked else if failErr.NoErr? then Counted else Unrecorded;
      }
    }

    /**
     * One batch. `processed` is the number of events this call moved out of PROCESSING, less the acknowledgements lost
     * on the way; without an error every leased event is out of PROCESSING or was skipped with its lease run out; and
     * the remaining budget of a closed table has dropped by at least the count. `server` is what goes on in the
     * database when the lease commits, `cancelAt` is the number of events after which the context is cancelled. A call
     * that panics returns nothing to its caller; `processed` then is what it had counted.
     */
    method ProcessBatch(w: nat, server: SkipLocked.Server, cancelAt: nat)
      returns (processed: nat, err: bool, panicked: bool, ghost leased: seq<Item>)
      requires Valid() && w < |workers| && workers[w].Idle?
      requires SkipLocked.ServerOk(c, server) && server.sys == Sys()
      modifies this, store
      ensures Progresses() && workers[w].Idle?
      ensures calls == old(calls) + [if panicked then NoReturn else Call(processed, err)] && (panicked ==> err)
      ensures !err ==> Leased(server, w, leased)
      ensures err <==> panicked || store.failures > old(store.failures) || cancelAt < |leased|
      ensures processed <= |leased| <= c.limit
      ensures processed <= Marks(log, TokensOf(leased))
      ensures store.reliable ==> processed == Marks(log, TokensOf(leased))
      ensures forall i | 0 <= i < |leased| :: leased[i].token !in old(store.issued)
      ensures !err ==> AllSettled(log, leased, |leased|, store.now)
      ensures old(MarkTotal(log)) + processed <= MarkTotal(log)
      ensures !open ==> TotalBudget(store.rows) + processed <= old(TotalBudget(store.rows))
    {
      hide Safe, Booked, TotalBudget, MarkTotal, Marks, Ledger.TokensOf, Enabled, Apply, Settled, PgStore.Lease,
           SkipLocked.ServerOk, Leased;
      processed, err, panicked, leased := 0, false, false, [];
      var events, fetchFailed := Fetch(w, server);
      NoItemsNoMarks(log);
      if fetchFailed {
        err := true;
      } else if |events| > 0 {
        leased := events;
        processed, err, panicked := Dispatch(w, events, cancelAt);
      }
      calls := calls + [if panicked then NoReturn else Call(processed, err)];
    }

    /** The loop over a leased batch. */
    method Dispatch(w: nat, events: seq<Item>, cancelAt: nat) returns (processed: nat, err: bool, panicked: bool)
      requires Valid() && AtEvent(w, events, 0, 0) && workers[w].phase.Ready? && |events| <= c.limit
      modifies this, store
      ensures Continues() && workers[w].Idle?
      ensures processed <= |events| && processed <= Marks(log, TokensOf(events))
      ensures store.reliable ==> processed == Marks(log, TokensOf(events))
      ensures !err ==> AllSettled(log, events, |events|, store.now)
      ensures old(MarkTotal(log)) + processed <= MarkTotal(log)
      ensures err <==> panicked || store.failures > old(store.failures) || cancelAt < |events|
    {
      hide Safe, Booked, TotalBudget, MarkTotal, Marks, Ledger.TokensOf, Enabled, Apply, Settled, PgStore.Lease;
      processed, err, panicked := 0, false, false;
      var i := 0;
      while i < |events|
        invariant 0 <= processed <= i <= |events| <= c.limit && i <= cancelAt && !panicked
        invariant Continues() && AtEvent(w, events, i, processed) && workers[w].phase.Ready?
        invariant old(MarkTotal(log)) + processed <= MarkTotal(log)
        invariant !err ==> AllSettled(log, events, i, store.now)
        invariant store.failures >= old(store.failures) && (err <==> store.failures > old(store.failures))
      {
        ghost var log0, now0 := log, store.now;
        Others(w);
        if i >= cancelAt {
          Leave(w, Crash(w));
          err := true;
          return;
        }
        var behaviour: Behaviour := *;
        var draw: Backoff.int64 := *;
        var r := Attempt(w, events[i], behaviour, draw, events, i, processed);
        if r.Stopped? || r.Panicked? {
          err, panicked := true, r.Panicked?;
          return;
        }
        if r.Unrecorded? {
          err := true;
        }
        if !err {
          SettledMore(log0, log, events, i, now0, store.now);
        }
        processed := if r.Counted? then processed + 1 else processed;
        i := i + 1;
      }
      Leave(w, Finish(w));
    }

    /**
     * One tick of runWorker: a batch, and as long as it is full and goes well, another one at once, until the context
     * is cancelled, at the latest before the batch after the first `cancelAt` extra ones. On a closed table the loop
     * ends, whatever the publisher does and even without any backoff: every batch but the last used up batch-size
     * budget. A call that panics ends the worker.
     */
    method Drain(w: nat, database: State -> SkipLocked.Server, cancelAt: nat) returns (batches: nat, alive: bool)
      requires Valid() && w < |workers| && workers[w].Idle? && !open && Serves(database)
      modifies this, store
      ensures Progresses() && workers[w].Idle?
      ensures 1 <= batches && (batches - 1) * c.limit <= old(TotalBudget(store.rows)) - TotalBudget(store.rows)
      ensures 0 <= TotalBudget(store.rows)
      ensures Drained(old(calls), calls, batches) && batches <= cancelAt + 1
      ensures var last := calls[|calls| - 1];
              && (alive <==> last.Call?)
              && (alive ==> last.count != c.limit || (batches > 1 && last.failed) || batches == cancelAt + 1)
    {
      hide Safe, Booked, TotalBudget, MarkTotal, Marks;
      var count, err;
      count, err, alive := NextBatch(w, database);
      batches := 1;
      while alive && count == c.limit
        invariant Progresses() && workers[w].Idle? && 1 <= batches <= cancelAt + 1 && 0 <= count <= c.limit
        invariant (batches - 1) * c.limit + count <= old(TotalBudget(store.rows)) - TotalBudget(store.rows)
        invariant 0 <= TotalBudget(store.rows)
        invariant Drained(old(calls), calls, batches) && (alive <==> calls[|calls| - 1].Call?)
        invariant alive ==> calls[|calls| - 1].count == count && (batches > 1 ==> !calls[|calls| - 1].failed)
        decreases if count == c.limit then TotalBudget(store.rows) + 1 else 0
      {
        if batches > cancelAt {
          return;
        }
        OneMoreBatch(batches, c.limit);
        count, err, alive := NextBatch(w, database);
        batches := batches + 1;
        if err {
          break;
        }
      }
    }

    /**
     * The calls of one drain: every one but the last returned a full batch, and after the first none of them an error.
     */
    ghost predicate Drained(before: seq<Call>, after: seq<Call>, batches: nat) {
      && 1 <= batches && |after| == |before| + batches && before <= after
      && forall i | |before| <= i < |after| - 1 ::
           after[i].Call? && after[i].count == c.limit && (i > |before| ==> !after[i].failed)
    }

    /** ProcessBatch with whatever the database has ready, and cancelled whenever it is. */
    method NextBatch(w: nat, database: State -> SkipLocked.Server) returns (count: nat, err: bool, alive: bool)
      requires Valid() && w < |workers| && workers[w].Idle? && !open && Serves(database)
      modifies this, store
      ensures Progresses() && workers[w].Idle?
      ensures calls == old(calls) + [if alive then Call(count, err) else NoReturn]
      ensures count <= c.limit && TotalBudget(store.rows) + count <= old(TotalBudget(store.rows))
      ensures 0 <= TotalBudget(store.rows)
    {
      hide Safe, Booked, TotalBudget, MarkTotal, Marks, SkipLocked.ServerOk;
      var cancelAt: nat := *;
      var panicked;
      ghost var leased;
      count, err, panicked, leased := ProcessBatch(w, database(Sys()), cancelAt);
      alive := !panicked;
      BudgetNotNegative(c, Sys());
    }

    /** What a database may be doing in each state of the system: any transactions, with their locks in order. */
    ghost predicate Serves(database: State -> SkipLocked.Server) {
      forall s :: Safe(c, s) ==> database(s).sys == s && SkipLocked.ServerOk(c, database(s))
    }
  }

  lemma OtherLeavesWorker(c: Config, s: State, a: Action, w: nat, open: bool)
    requires w < |s.workers| && ByOther(a, w, open) && Enabled(c, s, a)
    ensures var s' := Apply(c, s, a); |s'.workers| == |s.workers| && s'.workers[w] == s.workers[w]
  {
    if a.Fetch? {
      Batches.GrantAllEffect(c, Opened(s, a.w, a.at), a.w, a.at, a.picks);
    }
  }

  /** Marks are never taken back, and without inserts the account never grows. */
  lemma StepAccount(c: Config, s: State, a: Action)
    requires Safe(c, s) && Enabled(c, s, a)
    ensures var s' := Apply(c, s, a);
            && |s'.workers| == |s.workers| && s.now <= s'.now
            && MarkTotal(s.log) <= MarkTotal(s'.log) && s.log <= s'.log
            && (!a.Insert? ==> TotalBudget(s'.rows) + MarkTotal(s'.log) <= TotalBudget(s.rows) + MarkTotal(s.log))
  {
    if !a.Insert? {
      StepBudget(c, s, a);
    }
    match a
    case Insert(id, _, _, next) => MarkTotalAppend(s.log, Inserted(id, next));
    case Fetch(w, at, picks) =>
      Batches.GrantAllEffect(c, Opened(s, w, at), w, at, picks);
      GrantAllBudget(c, Opened(s, w, at), w, at, picks);
    case End(w, outcome) =>
      MarkTotalAppend(s.log, PublishEnded(Current(s, w).id, Current(s, w).token, outcome, s.now));
    case Mark(w, _, failedAt, backoff) =>
      MarkTotalAppend(s.log, MarkEntry(Current(s, w), s.workers[w].phase.outcome, failedAt, failedAt + backoff));
    case _ =>
  }

  lemma OneMoreBatch(b: nat, k: nat)
    requires 1 <= b
    ensures (b + 1 - 1) * k == (b - 1) * k + k
  {
  }

  lemma BudgetNotNegative(c: Config, s: State)
    requires Safe(c, s)
    ensures 0 <= TotalBudget(s.rows)
  {
    MarksWithinBudget(c, s, []);
  }

  lemma NoItemsNoMarks(log: seq<Entry>)
    ensures Marks(log, TokensOf([])) == 0
  {
    NoTokensNoMarks(log);
    assert TokensOf([]) == {};
  }

  lemma LedgerOf(c: Config, s: State, w: nat)
    requires Booked(c, s) && IsBusy(s, w)
    ensures s.workers[w].count + s.workers[w].lost == Marks(s.log, TokensOf(s.workers[w].items))
  {
    assert WorkerLedger(s, s.workers[w]);
  }

  /** The current event's token is real, so every statement about it is fenced, and its retry count is small. */
  lemma CurrentToken(c: Config, s: State, w: nat)
    requires Safe(c, s) && AtItem(s, w)
    ensures Current(s, w).token != NIL_TOKEN && 0 <= Current(s, w).retryCount <= 0x7fff_ffff
    ensures s.workers[w].since <= s.now
  {
    assert WorkerOk(c, s, s.workers[w]) && ItemOk(c, s, s.workers[w], Current(s, w));
  }

  /** A lease's statement time is not in the future. */
  lemma NotAhead(c: Config, server: SkipLocked.Server, w: nat)
    requires SkipLocked.ServerOk(c, server) && SkipLocked.Leasing(server, w)
    ensures server.txns[w].at <= server.sys.now
  {
    hide Safe;
    assert SkipLocked.TxnOk(c, server.sys, w, server.txns[w]);
  }

  /** A row that carries the item's token is as the item says. */
  lemma CurrentLease(c: Config, s: State, w: nat)
    requires Safe(c, s) && AtItem(s, w)
    ensures Matches(s.rows, Current(s, w).id, Current(s, w).token) ==> CarriesLease(s.rows, Current(s, w))
  {
    assert WorkerOk(c, s, s.workers[w]) && ItemOk(c, s, s.workers[w], Current(s, w));
    assert RowOk(c, s, Current(s, w).id, s.rows[Current(s, w).id]);
  }

  lemma FetchIsStep(c: Config, s: State, w: nat, at: Time, picks: seq<Pick>)
    requires Safe(c, s) && Booked(c, s) && w < |s.workers| && s.workers[w].Idle? && at <= s.now
    requires Leasable(s.rows, s.issued, at, c.limit, picks)
    ensures Enabled(c, s, LeaseProtocol.Fetch(w, at, picks))
    ensures var s', items := Apply(c, s, LeaseProtocol.Fetch(w, at, picks)), ReturnedItems(s.rows, picks, at + c.lease);
            && Safe(c, s') && Booked(c, s')
            && s'.rows == LeaseAll(s.rows, picks, at + c.lease) && s'.issued == IssueAll(s.issued, items)
            && s'.now == s.now && |s'.workers| == |s.workers|
            && s'.workers[w] == Busy(at, items, 0, Ready, s.now, 0, 0)
            && MarkTotal(s'.log) == MarkTotal(s.log) && s.log <= s'.log
            && TotalBudget(s'.rows) + MarkTotal(s'.log) <= TotalBudget(s.rows) + MarkTotal(s.log)
  {
    hide Safe, Booked, TotalBudget, MarkTotal;
    var a := LeaseProtocol.Fetch(w, at, picks);
    LeaseIsProtocolFetch(c, Opened(s, w, at), w, at, picks);
    StepSafe(c, s, a);
    StepBooked(c, s, a);
    StepAccount(c, s, a);
    Batches.GrantAllEffect(c, Opened(s, w, at), w, at, picks);
    GrantAllBudget(c, Opened(s, w, at), w, at, picks);
  }

  lemma MarkIsStep(c: Config, s: State, a: Action, tokens: set<Token>)
    requires Safe(c, s) && Booked(c, s) && a.Mark? && Enabled(c, s, a)
    ensures var s' := Apply(c, s, a);
            && Safe(c, s') && Booked(c, s') && |s'.workers| == |s.workers|
            && MarkTotal(s.log) <= MarkTotal(s'.log) && s.log <= s'.log
            && TotalBudget(s'.rows) + MarkTotal(s'.log) <= TotalBudget(s.rows) + MarkTotal(s.log)
            && Marks(s.log, tokens) <= Marks(s'.log, tokens)
            && (Matches(s.rows, Current(s, a.w).id, Current(s, a.w).token) && !a.reply.Refused? ==>
                  MarkTotal(s'.log) == MarkTotal(s.log) + 1 && Settled(s'.log, Current(s, a.w).token))
  {
    hide Safe, Booked, TotalBudget, MarkTotal, Marks;
    StepSafe(c, s, a);
    StepBooked(c, s, a);
    StepAccount(c, s, a);
    MarkCounts(c, s, a, tokens);
  }

  lemma MarkCounts(c: Config, s: State, a: Action, tokens: set<Token>)
    requires a.Mark? && Enabled(c, s, a)
    ensures Marks(s.log, tokens) <= Marks(Apply(c, s, a).log, tokens)
    ensures Matches(s.rows, Current(s, a.w).id, Current(s, a.w).token) && !a.reply.Refused? ==>
              MarkTotal(Apply(c, s, a).log) == MarkTotal(s.log) + 1
              && Settled(Apply(c, s, a).log, Current(s, a.w).token)
  {
    var e := MarkEntry(Current(s, a.w), s.workers[a.w].phase.outcome, a.failedAt, a.failedAt + a.backoff);
    MarkTotalAppend(s.log, e);
    Appended(s.log, e, 0, tokens);
    assert (s.log + [e])[|s.log|] == e;
  }
}
