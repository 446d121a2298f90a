/** The PostgreSQL store: each method as its effect on the table, including the calls the relay never makes. */
module OutboxStore {
  import opened Options
  import opened OutboxTypes
  import opened LeaseProtocol
  import Batches
  import SkipLocked
  import SkipOrder

  const NANOS: int := 1_000_000_000
  const MIN_LEASE: int := 5 * NANOS
  const DEFAULT_LEASE: int := 60 * NANOS

  // ---------------------------------------------------------------------------------------------------------
  // The store's own lease
  // ---------------------------------------------------------------------------------------------------------

  /** WithLeaseDuration: short positive durations become 5 s, others of zero or less leave the setting alone. */
  function Configured(lease: int, option: int): int {
    if option >= MIN_LEASE then option else if option > 0 then MIN_LEASE else lease
  }

  function ConfiguredAll(lease: int, options: seq<int>): int {
    if options == [] then lease else Configured(ConfiguredAll(lease, options[..|options| - 1]), options[|options| - 1])
  }

  /** The lease written into the query: whole seconds. */
  function LeaseSeconds(leaseDuration: int): int {
    if leaseDuration / NANOS <= 0 then 60 else leaseDuration / NANOS
  }

  /**
   * Whatever the options, the last positive one decides, and the lease in force is at least 5 s and less than a second
   * short.
   */
  lemma {:induction false} LeaseInForce(options: seq<int>)
    ensures var d := ConfiguredAll(DEFAULT_LEASE, options);
            && 5 <= LeaseSeconds(d)
            && LeaseSeconds(d) * 1_000_000_000 <= d < (LeaseSeconds(d) + 1) * 1_000_000_000
            && (forall i | 0 <= i < |options| && options[i] > 0 && (forall j | i < j < |options| :: options[j] <= 0) ::
                  d == if options[i] < 5_000_000_000 then 5_000_000_000 else options[i])
            && ((forall i | 0 <= i < |options| :: options[i] <= 0) ==> d == 60_000_000_000)
  {
    if options != [] {
      var n := |options| - 1;
      LeaseInForce(options[..n]);
      if options[n] <= 0 {
        forall i | 0 <= i < |options| && options[i] > 0 && (forall j | i < j < |options| :: options[j] <= 0)
          ensures ConfiguredAll(DEFAULT_LEASE, options) == if options[i] < MIN_LEASE then MIN_LEASE else options[i]
        {
          assert options[..n][i] == options[i];
        }
      }
    }
  }

  // ---------------------------------------------------------------------------------------------------------
  // The statements
  // ---------------------------------------------------------------------------------------------------------

  /** An event handed to Insert; a zero time is None. */
  datatype NewEvent = NewEvent(
    id: Id, status: Status, retryCount: int, maxRetries: int,
    scheduledAt: Option<Time>, nextRetryAt: Option<Time>, createdAt: Time)

  /** outbox.NewEvent: five retries unless a count of zero or more is given. */
  function FreshEvent(id: Id, maxRetries: Option<int>, now: Time): NewEvent {
    var retries := if maxRetries.Some? && maxRetries.value >= 0 then maxRetries.value else 5;
    NewEvent(id, Pending, 0, retries, Some(now), Some(now), now)
  }

  function InsertedRow(e: NewEvent, now: Time): Row {
    var scheduledAt := if e.scheduledAt.Some? then e.scheduledAt.value else now;
    var nextRetryAt := if e.nextRetryAt.Some? then e.nextRetryAt.value else scheduledAt;
    Row(e.status, e.retryCount, e.maxRetries, e.createdAt, nextRetryAt, None, None, None)
  }

  /** A lease token was passed and is not the nil UUID: the statement is fenced. */
  predicate Fenced(token: Option<Token>) {
    token.Some? && token.value != NIL_TOKEN
  }

  predicate Hits(rows: map<Id, Row>, id: Id, token: Option<Token>) {
    id in rows && (Fenced(token) ==> rows[id].leaseToken == token)
  }

  function PublishedRows(rows: map<Id, Row>, id: Id, token: Option<Token>, now: Time): map<Id, Row> {
    if Hits(rows, id, token) then rows[id := PublishedRow(rows[id], now)] else rows
  }

  function FailedRows(rows: map<Id, Row>, id: Id, token: Option<Token>, nextRetry: Time,
                      finalFail: bool): map<Id, Row> {
    if Hits(rows, id, token) then rows[id := FailedRow(rows[id], nextRetry, finalFail)] else rows
  }

  /** Rows one after the other leased to the picks. */
  function LeaseAll(rows: map<Id, Row>, picks: seq<Pick>, until: Time): map<Id, Row>
    decreases |picks|
  {
    if picks == [] then rows
    else
      var p := picks[0];
      LeaseAll(if p.id in rows then rows[p.id := LeasedRow(rows[p.id], p.token, until)] else rows, picks[1..], until)
  }

  /** RETURNING: one item per leased row. */
  function ReturnedItems(rows: map<Id, Row>, picks: seq<Pick>, until: Time): seq<Item>
    requires forall i | 0 <= i < |picks| :: picks[i].id in rows
  {
    seq(|picks|, i requires 0 <= i < |picks| => LeaseItem(rows[picks[i].id], picks[i], until))
  }

  function IssueAll(issued: map<Token, Item>, items: seq<Item>): map<Token, Item>
    decreases |items|
  {
    if items == [] then issued else IssueAll(issued[items[0].token := items[0]], items[1..])
  }

  /** A batch the lease query may take: eligible, distinct rows under distinct new tokens. */
  predicate Leasable(rows: map<Id, Row>, issued: map<Token, Item>, at: Time, limit: nat, picks: seq<Pick>) {
    && |picks| <= limit
    && (forall i | 0 <= i < |picks| :: picks[i].id in rows && Eligible(rows[picks[i].id], at))
    && (forall i | 0 <= i < |picks| :: picks[i].token != NIL_TOKEN && picks[i].token !in issued)
    && (forall i, j | 0 <= i < j < |picks| :: picks[i].id != picks[j].id && picks[i].token != picks[j].token)
  }

  /** These are the rows worker w's lease commits: an oldest batch of those it did not pass over. */
  ghost predicate Commits(c: Config, server: SkipLocked.Server, w: nat, picks: seq<Pick>) {
    && SkipLocked.Complete(c, server, w) && picks == SkipLocked.PendingPicks(server.txns[w])
    && Batches.OldestBatch(server.sys.rows - SkipOrder.PassedOver(server, w), server.txns[w].at, c.limit,
                           Batches.PickIds(picks))
  }

  lemma CompleteIsLeasable(c: Config, server: SkipLocked.Server, w: nat)
    requires SkipLocked.ServerOk(c, server) && SkipLocked.Complete(c, server, w)
    ensures Leasable(server.sys.rows, server.sys.issued, server.txns[w].at, c.limit,
                     SkipLocked.PendingPicks(server.txns[w]))
  {
    hide Safe;
    var t := server.txns[w];
    assert SkipLocked.TxnOk(c, server.sys, w, t);
    var ids := Batches.PickIds(SkipLocked.PendingPicks(t));
    forall i, j | 0 <= i < j < |ids| ensures t.pending[i].pick.id != t.pending[j].pick.id {
      assert ids[i] != ids[j];
    }
  }

  /** What a store method reports. */
  datatype StoreErr = NoErr | DbErr | LeaseExpired

  /** RowsAffected() == 0 and a driver error, as the caller sees them. */
  function MarkErr(hit: bool, reply: Reply): StoreErr {
    if !reply.Acked? then DbErr else if hit then NoErr else LeaseExpired
  }

  /**
   * The store over its table. The clock and the set of tokens already used stand for NOW() and gen_random_uuid();
   * a reliable connection never loses an answer. What becomes of each statement is an argument of the call.
   */
  class PgStore {
    var leaseDuration: int
    const reliable: bool
    var rows: map<Id, Row>
    var now: Time
    var issued: map<Token, Item>

    /** How many calls have reported an error. */
    ghost var failures: nat

    constructor (options: seq<int>, start: Time, reliable: bool)
      ensures leaseDuration == ConfiguredAll(DEFAULT_LEASE, options)
      ensures rows == map[] && issued == map[] && now == start && this.reliable == reliable
    {
      this.reliable := reliable;
      rows, issued, now, failures := map[], map[], start, 0;
      var lease := DEFAULT_LEASE;
      for i := 0 to |options|
        invariant lease == ConfiguredAll(DEFAULT_LEASE, options[..i])
      {
        assert options[..i + 1][..i] == options[..i];
        lease := Configured(lease, options[i]);
      }
      assert options[..|options|] == options;
      // The constructor's last guard, a lease below 5 s, is never met: LeaseInForce.
      leaseDuration := lease;
    }

    function Lease(): int
      reads this
    {
      LeaseSeconds(leaseDuration) * NANOS
    }

    /** The statement is run and answered, run but answered with an error, or not run. */
    method Deliver() returns (reply: Reply)
      ensures reliable ==> !reply.Lost?
    {
      reply := *;
      if reliable && reply.Lost? {
        reply := Refused;
      }
    }

    /** A row like the event, with missing times filled in: the next attempt is due when it is scheduled, or now. */
    method Insert(e: NewEvent, reply: Reply) returns (err: StoreErr)
      modifies this`rows, this`failures
      ensures err == if reply.Acked? && e.id !in old(rows) then NoErr else DbErr
      ensures rows == if e.id in old(rows) || reply.Refused? then old(rows) else
                        old(rows)[e.id := Row(e.status, e.retryCount, e.maxRetries, e.createdAt,
                                              if e.nextRetryAt.Some? then e.nextRetryAt.value
                                              else if e.scheduledAt.Some? then e.scheduledAt.value else now,
                                              None, None, None)]
      ensures failures == old(failures) + if err.NoErr? then 0 else 1
    {
      var duplicate := e.id in rows;
      if !duplicate && !reply.Refused? {
        rows := rows[e.id := InsertedRow(e, now)];
      }
      err := if duplicate then DbErr else MarkErr(true, reply);
      failures := failures + if err.NoErr? then 0 else 1;
    }

    /**
     * Lease up to `limit` rows (50 if none is given) and scan the returned rows into events, of which `scanned` can be
     * read. `server` is what goes on in the database: if worker w's lease is complete there, the statement commits it,
     * and otherwise it fails. Of the rows the lease did not pass over it takes the oldest.
     */
    method FetchPendingBatch(limit: int, c: Config, server: SkipLocked.Server, w: nat, reply: Reply, scanned: nat)
      returns (events: seq<Item>, err: StoreErr, picks: seq<Pick>)
      requires c.lease == Lease() && c.limit == (if limit <= 0 then 50 else limit) && SkipLocked.ServerOk(c, server)
      requires server.sys.rows == rows && server.sys.issued == issued && server.sys.now == now
      modifies this`rows, this`issued, this`failures
      ensures picks == [] || (Commits(c, server, w, picks) && !reply.Refused?)
      ensures err.NoErr? <==> reply.Acked? && SkipLocked.Complete(c, server, w) && |picks| <= scanned
      ensures !reply.Refused? && SkipLocked.Complete(c, server, w) ==> Commits(c, server, w, picks)
      ensures picks != [] ==> Leasable(old(rows), old(issued), server.txns[w].at, c.limit, picks)
      ensures rows == if picks == [] then old(rows) else LeaseAll(old(rows), picks, server.txns[w].at + Lease())
      ensures issued == if picks == [] then old(issued)
                        else IssueAll(old(issued), ReturnedItems(old(rows), picks, server.txns[w].at + Lease()))
      ensures err.NoErr? && picks != [] ==> events == ReturnedItems(old(rows), picks, server.txns[w].at + Lease())
      ensures !err.NoErr? || picks == [] ==> events == []
      ensures failures == old(failures) + if err.NoErr? then 0 else 1
    {
      hide SkipLocked.ServerOk, Batches.OldestBatch, SkipOrder.PassedOver, SkipLocked.PendingPicks,
           SkipLocked.Complete, LeaseAll, IssueAll, Eligible;
      var committed := SkipLocked.Complete(c, server, w) && !reply.Refused?;
      picks := [];
      var at := now;
      if committed {
        picks, at := Committed(c, server, w);
      }
      var returned := ReturnedItems(rows, picks, at + Lease());
      if picks != [] {
        rows, issued := LeaseAll(rows, picks, at + Lease()), IssueAll(issued, returned);
      }
      events, err := [], DbErr;
      if committed && reply.Acked? {
        events, err := Scan(returned, scanned);
      }
      failures := failures + if err.NoErr? then 0 else 1;
    }

    /** What the transaction has written, and when its statement began. */
    method Committed(c: Config, server: SkipLocked.Server, w: nat) returns (picks: seq<Pick>, at: Time)
      requires SkipLocked.ServerOk(c, server) && SkipLocked.Complete(c, server, w)
      ensures Commits(c, server, w, picks) && at == server.txns[w].at
      ensures Leasable(server.sys.rows, server.sys.issued, at, c.limit, picks)
    {
      hide SkipLocked.ServerOk, Batches.OldestBatch;
      CompleteIsLeasable(c, server, w);
      SkipOrder.CommitIsOldest(c, server, w);
      picks, at := SkipLocked.PendingPicks(server.txns[w]), server.txns[w].at;
    }

    /** The loop over the returned rows; one that cannot be read costs all of them. */
    method Scan(returned: seq<Item>, scanned: nat) returns (events: seq<Item>, err: StoreErr)
      ensures err == if |returned| <= scanned then NoErr else DbErr
      ensures events == if err.NoErr? then returned else []
    {
      events := [];
      for next := 0 to |returned|
        invariant events == returned[..next] && next <= scanned
      {
        if next >= scanned {
          return [], DbErr;
        }
        events := events + [returned[next]];
      }
      return events, NoErr;
    }

    /**
     * Without an error the row is published and free; an answer that no row was hit, because there is none of this id
     * or because it does not carry the real token that was passed, is an expired lease.
     */
    method MarkPublished(id: Id, token: Option<Token>, reply: Reply) returns (err: StoreErr)
      modifies this`rows, this`failures
      ensures var hit := id in old(rows)
                         && (token.Some? && token.value != NIL_TOKEN ==> old(rows)[id].leaseToken == token);
              && err == (if !reply.Acked? then DbErr else if hit then NoErr else LeaseExpired)
              && rows == if !hit || reply.Refused? then old(rows) else
                   old(rows)[id := old(rows)[id].(status := Published, publishedAt := Some(now), lockedUntil := None,
                                                  leaseToken := None)]
      ensures failures == old(failures) + if err.NoErr? then 0 else 1
    {
      err := MarkErr(Hits(rows, id, token), reply);
      if !reply.Refused? {
        rows := PublishedRows(rows, id, token, now);
      }
      failures := failures + if err.NoErr? then 0 else 1;
    }

    /** The same for a failure, which costs a retry and leaves the row pending until `nextRetry`, or dead. */
    method MarkFailed(id: Id, nextRetry: Time, finalFail: bool, token: Option<Token>, reply: Reply)
      returns (err: StoreErr)
      modifies this`rows, this`failures
      ensures var hit := id in old(rows)
                         && (token.Some? && token.value != NIL_TOKEN ==> old(rows)[id].leaseToken == token);
              && err == (if !reply.Acked? then DbErr else if hit then NoErr else LeaseExpired)
              && rows == if !hit || reply.Refused? then old(rows) else
                   old(rows)[id := old(rows)[id].(status := if finalFail then DeadLetter else Pending,
                                                  retryCount := old(rows)[id].retryCount + 1,
                                                  nextRetryAt := nextRetry, lockedUntil := None, leaseToken := None)]
      ensures failures == old(failures) + if err.NoErr? then 0 else 1
    {
      err := MarkErr(Hits(rows, id, token), reply);
      if !reply.Refused? {
        rows := FailedRows(rows, id, token, nextRetry, finalFail);
      }
      failures := failures + if err.NoErr? then 0 else 1;
    }
  }

  // ---------------------------------------------------------------------------------------------------------
  // How the statements relate to the protocol
  // ---------------------------------------------------------------------------------------------------------

  /**
   * Inserting what NewEvent builds is the protocol's Insert: a pending row with five retries, unless a number of zero
   * or more is given, and due at once.
   */
  lemma FreshInsertIsProtocolInsert(id: Id, maxRetries: Option<int>, created: Time, now: Time)
    ensures var e := FreshEvent(id, maxRetries, created);
            && e.id == id
            && InsertedRow(e, now) == NewRow(e.maxRetries, created, created)
            && InsertedRow(e, now) == Row(Pending, 0, e.maxRetries, created, created, None, None, None)
            && e.maxRetries == match maxRetries
                               case None => 5
                               case Some(n) => if n < 0 then 5 else n
  {
  }

  /** A batch of distinct rows is leased row by row: nothing but the lease changes, and nothing but these rows. */
  lemma {:induction false} LeaseAllExactly(rows: map<Id, Row>, picks: seq<Pick>, until: Time)
    requires forall i | 0 <= i < |picks| :: picks[i].id in rows
    requires forall i, j | 0 <= i < j < |picks| :: picks[i].id != picks[j].id
    ensures var rows', items := LeaseAll(rows, picks, until), ReturnedItems(rows, picks, until);
            && rows'.Keys == rows.Keys && |items| == |picks|
            && (forall i | 0 <= i < |picks| ::
                  var r := rows[picks[i].id];
                  && rows'[picks[i].id]
                     == r.(status := Processing, lockedUntil := Some(until), leaseToken := Some(picks[i].token))
                  && items[i] == Item(picks[i].id, picks[i].token, until, r.retryCount, r.maxRetries))
            && (forall id | id in rows && (forall i | 0 <= i < |picks| :: picks[i].id != id) :: rows'[id] == rows[id])
    decreases |picks|
  {
    if picks != [] {
      var rows1, rest := rows[picks[0].id := LeasedRow(rows[picks[0].id], picks[0].token, until)], picks[1..];
      LeaseAllExactly(rows1, rest, until);
      assert forall i | 0 < i < |picks| :: picks[i] == rest[i - 1];
    }
  }

  /**
   * On a terminal row, which carries no lease, a mark changes nothing exactly when the call is fenced, except that
   * MarkPublished may repeat what the row already says. Without a real token MarkFailed always spends another retry.
   */
  lemma TerminalKeptIffFenced(rows: map<Id, Row>, id: Id, token: Option<Token>, nextRetry: Time, finalFail: bool,
                              now: Time)
    requires id in rows && rows[id].status.IsTerminal() && rows[id].leaseToken == None
    ensures FailedRows(rows, id, token, nextRetry, finalFail) == rows <==> Fenced(token)
    ensures PublishedRows(rows, id, token, now) == rows
            <==> Fenced(token) || (rows[id].status == Published && rows[id].publishedAt == Some(now)
                                   && rows[id].lockedUntil == None)
    ensures !Fenced(token) ==>
              && PublishedRows(rows, id, token, now)[id].status == Published
              && FailedRows(rows, id, token, nextRetry, finalFail)[id].retryCount == rows[id].retryCount + 1
  {
    assert FailedRows(rows, id, token, nextRetry, finalFail) == rows ==>
             FailedRows(rows, id, token, nextRetry, finalFail)[id] == rows[id];
    assert PublishedRows(rows, id, token, now) == rows ==> PublishedRows(rows, id, token, now)[id] == rows[id];
    assert rows[id := rows[id]] == rows;
  }

  /** A fenced statement for the current item has exactly the effect on the rows that the protocol's mark has. */
  lemma FencedMarkIsProtocolMark(s: State, w: nat, reply: Reply, failedAt: Time, nextRetry: Time)
    requires AtItem(s, w) && s.workers[w].phase.Returned? && Current(s, w).token != NIL_TOKEN
    ensures var item := Current(s, w);
            var s' := ApplyMark(s, w, reply, failedAt, nextRetry);
            && Hits(s.rows, item.id, Some(item.token)) == Matches(s.rows, item.id, item.token)
            && s'.rows == if reply.Refused? then s.rows else
                 match s.workers[w].phase.outcome
                 case Success => PublishedRows(s.rows, item.id, Some(item.token), failedAt)
                 case Failure(nr) => FailedRows(s.rows, item.id, Some(item.token), nextRetry, FinalFail(item, nr))
  {
  }

  /** One statement leasing a batch is the protocol's fetch. */
  lemma {:induction false} LeaseIsProtocolFetch(c: Config, s: State, w: nat, at: Time, picks: seq<Pick>)
    requires IsBusy(s, w) && |s.workers[w].items| + |picks| <= c.limit
    requires Leasable(s.rows, s.issued, at, c.limit, picks)
    ensures GrantableAll(c, s, w, at, picks)
    ensures var s', items := GrantAll(c, s, w, at, picks), ReturnedItems(s.rows, picks, at + c.lease);
            && s'.rows == LeaseAll(s.rows, picks, at + c.lease)
            && s'.issued == IssueAll(s.issued, items)
            && s'.now == s.now
            && s'.workers == s.workers[w := s.workers[w].(items := s.workers[w].items + items)]
    decreases |picks|
  {
    if picks == [] {
      assert s.workers[w].items + [] == s.workers[w].items;
    } else {
      var s1 := Grant(c, s, w, at, picks[0]);
      LeaseIsProtocolFetch(c, s1, w, at, picks[1..]);
      var items, rest := ReturnedItems(s.rows, picks, at + c.lease), ReturnedItems(s1.rows, picks[1..], at + c.lease);
      assert rest == items[1..];
      assert s.workers[w].items + items == s1.workers[w].items + rest;
    }
  }
}
