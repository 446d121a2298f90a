/** Rows of the outbox table and the effect of each SQL statement on one row. */
module OutboxTypes {
  import opened Options

  type Id = nat
  type Token = nat
  type Time = int

  /** The all-zero UUID; the store treats it like an absent lease token. */
  const NIL_TOKEN: Token := 0

  datatype Status = Pending | Processing | Published | DeadLetter | Failed {
    predicate IsTerminal() {
      Published? || DeadLetter? || Failed?
    }
  }

  /** The columns the leasing protocol reads or writes. */
  datatype Row = Row(
    status: Status,
    retryCount: int,
    maxRetries: int,
    createdAt: Time,
    nextRetryAt: Time,
    lockedUntil: Option<Time>,
    leaseToken: Option<Token>,
    publishedAt: Option<Time>
  )

  /** WHERE clause of the lease query, evaluated with NOW() = t. A NULL locked_until compares as not true. */
  predicate Eligible(r: Row, t: Time) {
    && (r.status.Pending? || (r.status.Processing? && r.lockedUntil.Some? && r.lockedUntil.value < t))
    && r.nextRetryAt <= t
  }

  /** SET clause of the lease query. */
  function LeasedRow(r: Row, token: Token, until: Time): Row {
    r.(status := Processing, lockedUntil := Some(until), leaseToken := Some(token))
  }

  /** SET clause of MarkPublished. */
  function PublishedRow(r: Row, at: Time): Row {
    r.(status := Published, publishedAt := Some(at), lockedUntil := None, leaseToken := None)
  }

  /** SET clause of MarkFailed. */
  function FailedRow(r: Row, nextRetry: Time, finalFail: bool): Row {
    r.(status := if finalFail then DeadLetter else Pending,
       retryCount := r.retryCount + 1,
       nextRetryAt := nextRetry,
       lockedUntil := None,
       leaseToken := None)
  }

  /** The range of the INT columns retry_count and max_retries. */
  predicate IsInt4(n: int) {
    -0x8000_0000 <= n <= 0x7fff_ffff
  }

  /** How many publish attempts an event can have recorded against it: at least one, whatever MaxRetries says. */
  function Cap(maxRetries: int): nat {
    if maxRetries < 1 then 1 else maxRetries
  }

  /** Attempts a row has left before it must be terminal. */
  function Budget(r: Row): int {
    if r.status.IsTerminal() then 0 else Cap(r.maxRetries) - r.retryCount
  }

  /** What an event carries away from the lease query: the columns a worker later decides from. */
  datatype Item = Item(id: Id, token: Token, lockedUntil: Time, retryCount: int, maxRetries: int)

  function ItemIds(items: seq<Item>): seq<Id> {
    seq(|items|, i requires 0 <= i < |items| => items[i].id)
  }

  /** finalFail of the relay, computed from the fetched snapshot and not from the row. */
  predicate FinalFail(item: Item, nonRetryable: bool) {
    item.retryCount + 1 >= item.maxRetries || nonRetryable
  }

  /** The fenced WHERE clause of both marks. */
  predicate Matches(rows: map<Id, Row>, id: Id, token: Token) {
    id in rows && rows[id].leaseToken == Some(token)
  }
}
