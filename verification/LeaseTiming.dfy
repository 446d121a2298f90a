/**
 * Timed exclusion on one clock: when publishers obey the publish timeout and the other steps are prompt, two publishes
 * of one event overlap only in the window after an expired lease, and never if the whole batch fits in the lease.
 */
module LeaseTiming {
  import opened OutboxTypes
  import opened LeaseProtocol
  import Batches

  /** Upper bounds on how long each kind of step takes. */
  datatype Timing = Timing(publishTimeout: nat, gap: nat, markTime: nat, fetchTime: nat) {
    /** Check, start, publish and mark one event. */
    function PerEvent(): nat {
      gap + gap + publishTimeout + markTime
    }
  }

  function PhaseLimit(t: Timing, p: Phase): nat {
    match p
    case Ready => t.gap
    case Checked => t.gap
    case Publishing => t.publishTimeout
    case Returned(_) => t.markTime
  }

  /** Time passes only while every worker is within the bound of its phase; a lease statement commits in time. */
  predicate InTime(t: Timing, s: State, a: Action) {
    match a
    case Tick(d) =>
      forall w | 0 <= w < |s.workers| && s.workers[w].Busy? ::
        s.now + d <= s.workers[w].since + PhaseLimit(t, s.workers[w].phase)
    case Fetch(_, at, _) => s.now <= at + t.fetchTime
    case _ => true
  }

  predicate TimedRun(c: Config, t: Timing, s: State, acts: seq<Action>)
    decreases |acts|
  {
    acts == [] ||
    (Enabled(c, s, acts[0]) && InTime(t, s, acts[0]) && TimedRun(c, t, Apply(c, s, acts[0]), acts[1..]))
  }

  lemma {:induction false} TimedIsValid(c: Config, t: Timing, s: State, acts: seq<Action>)
    requires TimedRun(c, t, s, acts)
    ensures ValidRun(c, s, acts)
    decreases |acts|
  {
    if acts != [] {
      TimedIsValid(c, t, Apply(c, s, acts[0]), acts[1..]);
    }
  }

  /** Latest time at which a worker can begin on events[pos]. */
  function Deadline(t: Timing, wk: Worker): int
    requires wk.Busy?
  {
    wk.fetchedAt + t.fetchTime + wk.pos * t.PerEvent()
  }

  function PhaseOffset(t: Timing, p: Phase): nat {
    match p
    case Ready => 0
    case Checked => t.gap
    case Publishing => t.gap + t.gap
    case Returned(_) => t.gap + t.gap + t.publishTimeout
  }

  ghost predicate OnTime(t: Timing, now: Time, wk: Worker) {
    wk.Busy? ==>
      && wk.since <= now <= wk.since + PhaseLimit(t, wk.phase)
      && wk.since <= Deadline(t, wk) + PhaseOffset(t, wk.phase)
      && (wk.phase.Checked? && wk.pos < |wk.items| ==> wk.since < wk.items[wk.pos].lockedUntil)
      && (wk.phase.Publishing? && wk.pos < |wk.items| ==> wk.since < wk.items[wk.pos].lockedUntil + t.gap)
  }

  ghost predicate AllOnTime(t: Timing, s: State) {
    forall w | 0 <= w < |s.workers| :: OnTime(t, s.now, s.workers[w])
  }

  lemma NextDeadline(t: Timing, pos: nat)
    ensures (pos + 1) * t.PerEvent() == pos * t.PerEvent() + t.PerEvent()
  {
  }

  lemma StepOnTime(c: Config, t: Timing, s: State, a: Action)
    requires Safe(c, s) && AllOnTime(t, s) && Enabled(c, s, a) && InTime(t, s, a)
    ensures AllOnTime(t, Apply(c, s, a))
  {
    var s' := Apply(c, s, a);
    if a.Fetch? {
      Batches.GrantAllEffect(c, Opened(s, a.w, a.at), a.w, a.at, a.picks);
      forall v | 0 <= v < |s'.workers| ensures OnTime(t, s'.now, s'.workers[v]) {
        assert OnTime(t, s.now, s.workers[v]);
      }
    } else if a.Tick? || a.Insert? {
      forall v | 0 <= v < |s'.workers| ensures OnTime(t, s'.now, s'.workers[v]) {
        assert OnTime(t, s.now, s.workers[v]);
      }
    } else {
      LocalOnTime(c, t, s, a, a.w);
    }
  }

  lemma LocalOnTime(c: Config, t: Timing, s: State, a: Action, w: nat)
    requires AllOnTime(t, s) && Enabled(c, s, a) && w < |s.workers|
    requires a in {Check(w), Start(w), Finish(w), Crash(w)} || (a.End? && a.w == w) || (a.Mark? && a.w == w)
    ensures AllOnTime(t, Apply(c, s, a))
  {
    var s' := Apply(c, s, a);
    assert OnTime(t, s.now, s.workers[w]);
    NextDeadline(t, if IsBusy(s, w) then s.workers[w].pos else 0);
    forall v | 0 <= v < |s'.workers| ensures OnTime(t, s'.now, s'.workers[v]) {
      if v != w {
        assert OnTime(t, s.now, s.workers[v]);
      }
    }
  }

  lemma {:induction false} TimedRunOnTime(c: Config, t: Timing, s: State, acts: seq<Action>)
    requires Safe(c, s) && AllOnTime(t, s) && TimedRun(c, t, s, acts)
    ensures ValidRun(c, s, acts) && Safe(c, Exec(c, s, acts)) && AllOnTime(t, Exec(c, s, acts))
    decreases |acts|
  {
    if acts != [] {
      StepOnTime(c, t, s, acts[0]);
      StepSafe(c, s, acts[0]);
      TimedRunOnTime(c, t, Apply(c, s, acts[0]), acts[1..]);
    }
  }

  lemma TimedReachable(c: Config, t: Timing, start: Time, n: nat, acts: seq<Action>)
    requires TimedRun(c, t, Init(start, n), acts)
    ensures ValidRun(c, Init(start, n), acts)
    ensures var s := Exec(c, Init(start, n), acts); Safe(c, s) && AllOnTime(t, s)
  {
    InitSafe(c, start, n);
    TimedRunOnTime(c, t, Init(start, n), acts);
  }

  /** Worker w is inside Publish for this event. */
  predicate PublishingEvent(s: State, w: nat, id: Id) {
    AtItem(s, w) && s.workers[w].phase.Publishing? && Current(s, w).id == id
  }

  /** Two workers inside Publish for one event at the same moment. */
  predicate Overlap(s: State, w1: nat, w2: nat, id: Id) {
    w1 != w2 && PublishingEvent(s, w1, id) && PublishingEvent(s, w2, id)
  }

  /** A worker publishing on a lease that has run out, and not for longer than the publish timeout allows. */
  predicate InExpiryWindow(t: Timing, s: State, w: nat)
    requires AtItem(s, w)
  {
    Current(s, w).lockedUntil < s.now < Current(s, w).lockedUntil + t.gap + t.publishTimeout
  }

  /** Overlapping publishes of one event happen only in the window after one of the two leases ran out. */
  lemma OverlapOnlyAfterExpiry(c: Config, t: Timing, start: Time, n: nat, acts: seq<Action>, w1: nat, w2: nat, id: Id)
    requires TimedRun(c, t, Init(start, n), acts)
    requires ValidRun(c, Init(start, n), acts)
    requires Overlap(Exec(c, Init(start, n), acts), w1, w2, id)
    ensures var s := Exec(c, Init(start, n), acts); InExpiryWindow(t, s, w1) || InExpiryWindow(t, s, w2)
  {
    TimedReachable(c, t, start, n, acts);
    var s := Exec(c, Init(start, n), acts);
    assert OnTime(t, s.now, s.workers[w1]) && OnTime(t, s.now, s.workers[w2]);
    var p1, p2 := s.workers[w1].pos, s.workers[w2].pos;
    assert Holds(s, w1, p1) && Holds(s, w2, p2) && IsSlot(s, w1, p1) && IsSlot(s, w2, p2);
  }

  /** A batch of `limit` events, the last one still being published, fits in the store's lease. */
  predicate Fits(c: Config, t: Timing) {
    c.limit == 0 || t.fetchTime + (c.limit - 1) * t.PerEvent() + t.gap + t.gap + t.publishTimeout <= c.lease
  }

  /** If a batch fits in the lease, no two publishes of an event ever overlap, in any timed run. */
  lemma NoOverlapIfFits(c: Config, t: Timing, start: Time, n: nat, acts: seq<Action>, w1: nat, w2: nat, id: Id)
    requires TimedRun(c, t, Init(start, n), acts) && Fits(c, t)
    ensures ValidRun(c, Init(start, n), acts)
    ensures !Overlap(Exec(c, Init(start, n), acts), w1, w2, id)
  {
    TimedReachable(c, t, start, n, acts);
    var s := Exec(c, Init(start, n), acts);
    if Overlap(s, w1, w2, id) {
      PublishesOnLiveLease(c, t, s, w1);
      PublishesOnLiveLease(c, t, s, w2);
      var p1, p2 := s.workers[w1].pos, s.workers[w2].pos;
      assert Holds(s, w1, p1) && Holds(s, w2, p2) && IsSlot(s, w1, p1) && IsSlot(s, w2, p2);
      assert false;
    }
  }

  lemma PublishesOnLiveLease(c: Config, t: Timing, s: State, w: nat)
    requires Safe(c, s) && AllOnTime(t, s) && Fits(c, t)
    requires AtItem(s, w) && s.workers[w].phase.Publishing?
    ensures s.now <= Current(s, w).lockedUntil
  {
    var wk := s.workers[w];
    assert WorkerOk(c, s, wk) && ItemOk(c, s, wk, wk.items[wk.pos]) && OnTime(t, s.now, wk);
    MulMono(wk.pos, c.limit - 1, t.PerEvent());
  }

  lemma MulMono(a: nat, b: nat, k: nat)
    requires a <= b
    ensures a * k <= b * k
  {
  }

  /**
   * With prompt fetches and local steps the condition is: batch size times (publish timeout plus mark time) within the
   * lease.
   */
  lemma SimpleFit(c: Config, t: Timing)
    requires t.gap == 0 && t.fetchTime == 0
    requires c.limit * (t.publishTimeout + t.markTime) <= c.lease
    ensures Fits(c, t)
  {
    if c.limit > 0 {
      NextDeadline(t, c.limit - 1);
    }
  }
}
