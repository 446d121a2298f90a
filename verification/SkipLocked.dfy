/**
 * Leasing as PostgreSQL runs it. A fetch is a transaction that takes a snapshot of the eligible rows, oldest first;
 * visits them one by one and locks each row nobody else has locked, after checking the predicate again on the version
 * now in the table; writes new versions of the locked rows one by one, seen by nobody else; and publishes them when it
 * commits. A mark waits for its row's lock, writes its new version and commits. The machine does nothing the atomic
 * protocol cannot do.
 */
module SkipLocked {
  import opened OutboxTypes
  import opened LeaseProtocol
  import opened Batches

  /** A row version a lease has written and not yet committed, with the token generated for it. */
  datatype Version = Version(pick: Pick, row: Row)

  /**
   * A worker's open transaction: a lease that has visited the first `pos` rows of its snapshot, locked some, skipped
   * the others and written `pending`; or a mark that holds its row, and then has written its new version.
   */
  datatype Txn =
    | NoTxn
    | Lease(at: Time, snapshot: seq<Id>, pos: nat, locked: seq<Id>, skipped: seq<Id>, pending: seq<Version>)
    | MarkLock(id: Id)
    | MarkWritten(id: Id, failedAt: Time, backoff: nat, version: Row)

  datatype Server = Server(sys: State, txns: seq<Txn>)

  datatype Step =
    | Begin(w: nat, snapshot: seq<Id>)
    | Visit(w: nat)
    | UpdateRow(w: nat, pick: Pick)
    | Commit(w: nat)
    | Abort(w: nat)
    | LockRow(w: nat)
    | WriteMark(w: nat, failedAt: Time, backoff: nat)
    | CommitMark(w: nat, reply: Reply)
    | Plain(a: Action)

  predicate HoldsLock(t: Txn, id: Id) {
    match t
    case NoTxn => false
    case Lease(_, _, _, locked, _, _) => id in locked
    case MarkLock(k) => k == id
    case MarkWritten(k, _, _, _) => k == id
  }

  predicate LockedByOther(cs: Server, w: nat, id: Id) {
    exists v | 0 <= v < |cs.txns| :: v != w && HoldsLock(cs.txns[v], id)
  }

  predicate HasToken(t: Txn, token: Token) {
    t.Lease? && exists i | 0 <= i < |t.pending| :: t.pending[i].pick.token == token
  }

  predicate Leasing(cs: Server, w: nat) {
    w < |cs.txns| && cs.txns[w].Lease?
  }

  /** The limit is reached or the snapshot is at its end. */
  predicate ScanDone(c: Config, t: Txn)
    requires t.Lease?
  {
    t.pos >= |t.snapshot| || |t.locked| == c.limit
  }

  function PendingPicks(t: Txn): seq<Pick>
    requires t.Lease?
  {
    seq(|t.pending|, i requires 0 <= i < |t.pending| => t.pending[i].pick)
  }

  /** The lease can commit: it has written a new version of every row it locked. */
  predicate Complete(c: Config, cs: Server, w: nat) {
    Leasing(cs, w) && ScanDone(c, cs.txns[w]) && |cs.txns[w].pending| == |cs.txns[w].locked|
  }

  /** Statements that write nothing others could see: a mark here changes no row, the others go through WriteMark. */
  predicate PlainEnabled(c: Config, cs: Server, a: Action) {
    && !a.Fetch? && Enabled(c, cs.sys, a)
    && (a.Mark? ==> a.reply.Refused? || !Matches(cs.sys.rows, Current(cs.sys, a.w).id, Current(cs.sys, a.w).token))
  }

  ghost predicate StepEnabled(c: Config, cs: Server, st: Step) {
    match st
    case Begin(w, snapshot) =>
      && w < |cs.txns| && cs.txns[w].NoTxn? && w < |cs.sys.workers| && cs.sys.workers[w].Idle?
      && OldestFirst(cs.sys.rows, cs.sys.now, snapshot)
    case Visit(w) => Leasing(cs, w) && !ScanDone(c, cs.txns[w])
    case UpdateRow(w, p) =>
      && Leasing(cs, w) && ScanDone(c, cs.txns[w])
      && p.id in cs.txns[w].locked && p.id in cs.sys.rows && p.id !in PickIds(PendingPicks(cs.txns[w]))
      && p.token != NIL_TOKEN && p.token !in cs.sys.issued
      && forall v | 0 <= v < |cs.txns| :: !HasToken(cs.txns[v], p.token)
    case Commit(w) => Complete(c, cs, w)
    case Abort(w) => w < |cs.txns|
    case LockRow(w) =>
      && w < |cs.txns| && cs.txns[w].NoTxn? && AtItem(cs.sys, w) && cs.sys.workers[w].phase.Returned?
      && !LockedByOther(cs, w, Current(cs.sys, w).id)
    case WriteMark(w, failedAt, backoff) =>
      && w < |cs.txns| && AtItem(cs.sys, w) && cs.sys.workers[w].phase.Returned?
      && cs.txns[w] == MarkLock(Current(cs.sys, w).id)
      && Matches(cs.sys.rows, Current(cs.sys, w).id, Current(cs.sys, w).token)
      && cs.sys.workers[w].since <= failedAt <= cs.sys.now && backoff <= c.maxBackoff
    case CommitMark(w, reply) => w < |cs.txns| && cs.txns[w].MarkWritten? && AtItem(cs.sys, w) && !reply.Refused?
    case Plain(a) => PlainEnabled(c, cs, a)
  }

  /** SKIP LOCKED on the next row of the snapshot, then the predicate again on the version now in the table. */
  function Visited(cs: Server, w: nat): Txn
    requires Leasing(cs, w) && cs.txns[w].pos < |cs.txns[w].snapshot|
  {
    var t := cs.txns[w];
    var id := t.snapshot[t.pos];
    if LockedByOther(cs, w, id) || id !in cs.sys.rows || !Eligible(cs.sys.rows[id], t.at) then
      t.(pos := t.pos + 1, skipped := t.skipped + [id])
    else t.(pos := t.pos + 1, locked := t.locked + [id])
  }

  /** UPDATE ... WHERE id IN (the locked ids), one row: the predicate is not looked at again. */
  function Updated(c: Config, cs: Server, w: nat, p: Pick): Txn
    requires Leasing(cs, w) && p.id in cs.sys.rows
  {
    var t := cs.txns[w];
    t.(pending := t.pending + [Version(p, LeasedRow(cs.sys.rows[p.id], p.token, t.at + c.lease))])
  }

  /** What RETURNING makes of a written version. */
  function VersionItem(v: Version): Item {
    Item(v.pick.id, v.pick.token, if v.row.lockedUntil.Some? then v.row.lockedUntil.value else 0,
         v.row.retryCount, v.row.maxRetries)
  }

  /** The commit: the written versions become the rows, and the answer reaches the worker. */
  function Publish(s: State, w: nat, at: Time, pending: seq<Version>): State
    decreases |pending|
  {
    if pending == [] || !IsBusy(s, w) then s
    else
      var v := pending[0];
      var wk := s.workers[w];
      var s1 := s.(rows := s.rows[v.pick.id := v.row],
                   workers := s.workers[w := wk.(items := wk.items + [VersionItem(v)])],
                   issued := s.issued[v.pick.token := VersionItem(v)],
                   log := s.log + [LeaseGranted(v.pick.id, v.pick.token, at)]);
      Publish(s1, w, at, pending[1..])
  }

  function WrittenMark(cs: Server, w: nat, failedAt: Time, backoff: nat): Txn
    requires AtItem(cs.sys, w) && cs.sys.workers[w].phase.Returned? && Current(cs.sys, w).id in cs.sys.rows
  {
    var item := Current(cs.sys, w);
    MarkWritten(item.id, failedAt, backoff,
                MarkedRow(cs.sys.rows[item.id], item, cs.sys.workers[w].phase.outcome, failedAt, failedAt + backoff))
  }

  /** The written version becomes the row, and the worker goes on. */
  function PublishMark(s: State, w: nat, t: Txn, reply: Reply): State
    requires t.MarkWritten? && AtItem(s, w)
  {
    var item := Current(s, w);
    if !s.workers[w].phase.Returned? then s
    else
      s.(rows := s.rows[t.id := t.version],
         workers := s.workers[w := AfterMark(s.workers[w], s.now, true, reply)],
         log := s.log + [MarkEntry(item, s.workers[w].phase.outcome, t.failedAt, t.failedAt + t.backoff)])
  }

  /** A finished mark and a crash release what the worker had locked. */
  function Released(txns: seq<Txn>, a: Action): seq<Txn> {
    if (a.Mark? || a.Crash?) && a.w < |txns| then txns[a.w := NoTxn] else txns
  }

  function StepTo(c: Config, cs: Server, st: Step): Server
    requires StepEnabled(c, cs, st)
  {
    match st
    case Begin(w, snapshot) => cs.(txns := cs.txns[w := Lease(cs.sys.now, snapshot, 0, [], [], [])])
    case Visit(w) => cs.(txns := cs.txns[w := Visited(cs, w)])
    case UpdateRow(w, p) => cs.(txns := cs.txns[w := Updated(c, cs, w, p)])
    case Commit(w) =>
      var t := cs.txns[w];
      if w < |cs.sys.workers| then
        Server(Publish(Opened(cs.sys, w, t.at), w, t.at, t.pending), cs.txns[w := NoTxn])
      else cs
    case Abort(w) => cs.(txns := cs.txns[w := NoTxn])
    case LockRow(w) => cs.(txns := cs.txns[w := MarkLock(Current(cs.sys, w).id)])
    case WriteMark(w, failedAt, backoff) => cs.(txns := cs.txns[w := WrittenMark(cs, w, failedAt, backoff)])
    case CommitMark(w, reply) => Server(PublishMark(cs.sys, w, cs.txns[w], reply), cs.txns[w := NoTxn])
    case Plain(a) => Server(Apply(c, cs.sys, a), Released(cs.txns, a))
  }

  /** The atomic step a server step amounts to, if any. */
  function Amounts(c: Config, cs: Server, st: Step): seq<Action>
    requires st.Commit? ==> Complete(c, cs, st.w)
    requires st.CommitMark? ==> st.w < |cs.txns| && cs.txns[st.w].MarkWritten?
  {
    match st
    case Commit(w) => [Fetch(w, cs.txns[w].at, PendingPicks(cs.txns[w]))]
    case CommitMark(w, reply) => [Mark(w, reply, cs.txns[w].failedAt, cs.txns[w].backoff)]
    case Plain(a) => [a]
    case _ => []
  }

  // ---------------------------------------------------------------------------------------------------------
  // Locks protect what they cover
  // ---------------------------------------------------------------------------------------------------------

  /** Every version written is still what the lease makes of the current row, under a token nobody has. */
  ghost predicate PendingOk(c: Config, s: State, t: Txn)
    requires t.Lease?
  {
    && DistinctIds(PickIds(PendingPicks(t)))
    && (forall i, j | 0 <= i < j < |t.pending| :: t.pending[i].pick.token != t.pending[j].pick.token)
    && (forall i | 0 <= i < |t.pending| ::
          var v := t.pending[i];
          && v.pick.id in t.locked && v.pick.id in s.rows
          && v.row == LeasedRow(s.rows[v.pick.id], v.pick.token, t.at + c.lease)
          && v.pick.token != NIL_TOKEN && v.pick.token !in s.issued)
  }

  /** Locked, skipped and unvisited rows make up the snapshot, which is in order of age; a locked row stays eligible. */
  ghost predicate ScanOk(c: Config, s: State, t: Txn)
    requires t.Lease?
  {
    && t.pos <= |t.snapshot| && DistinctIds(t.snapshot)
    && (forall i | 0 <= i < |t.snapshot| :: t.snapshot[i] in s.rows)
    && (forall i, j | 0 <= i < j < |t.snapshot| :: s.rows[t.snapshot[i]].createdAt <= s.rows[t.snapshot[j]].createdAt)
    && |t.locked| <= c.limit && DistinctIds(t.locked)
    && (forall id | id in t.locked :: id in t.snapshot[..t.pos] && id !in t.skipped && Eligible(s.rows[id], t.at))
    && (forall id | id in t.skipped :: id in t.snapshot[..t.pos])
    && (forall i | 0 <= i < t.pos :: t.snapshot[i] in t.locked || t.snapshot[i] in t.skipped)
  }

  ghost predicate TxnOk(c: Config, s: State, w: nat, t: Txn) {
    match t
    case NoTxn => true
    case Lease(at, _, _, _, _, _) =>
      && w < |s.workers| && s.workers[w].Idle? && at <= s.now
      && ScanOk(c, s, t) && PendingOk(c, s, t)
    case MarkLock(id) => AtItem(s, w) && s.workers[w].phase.Returned? && Current(s, w).id == id
    case MarkWritten(id, failedAt, backoff, version) =>
      && AtItem(s, w) && s.workers[w].phase.Returned? && Current(s, w).id == id
      && Matches(s.rows, id, Current(s, w).token)
      && s.workers[w].since <= failedAt <= s.now && backoff <= c.maxBackoff
      && version == MarkedRow(s.rows[id], Current(s, w), s.workers[w].phase.outcome, failedAt, failedAt + backoff)
  }

  ghost predicate LocksExclusive(cs: Server) {
    forall v, w, id: Id | 0 <= v < |cs.txns| && 0 <= w < |cs.txns| ::
      HoldsLock(cs.txns[v], id) && HoldsLock(cs.txns[w], id) ==> v == w
  }

  ghost predicate TokensExclusive(cs: Server) {
    forall v, w, token: Token | 0 <= v < |cs.txns| && 0 <= w < |cs.txns| ::
      HasToken(cs.txns[v], token) && HasToken(cs.txns[w], token) ==> v == w
  }

  ghost predicate ServerOk(c: Config, cs: Server) {
    && Safe(c, cs.sys)
    && (forall w | 0 <= w < |cs.txns| :: TxnOk(c, cs.sys, w, cs.txns[w]))
    && LocksExclusive(cs) && TokensExclusive(cs)
  }

  /** What a step of the table leaves true for the owner of a transaction it does not concern. */
  ghost predicate Spares(s: State, s': State, w: nat, t: Txn) {
    && s.now <= s'.now
    && |s'.workers| == |s.workers| && (w < |s.workers| ==> s'.workers[w] == s.workers[w])
    && (forall id | id in s.rows :: id in s'.rows && s'.rows[id].createdAt == s.rows[id].createdAt)
    && (forall id | id in s.rows && HoldsLock(t, id) :: s'.rows[id] == s.rows[id])
    && (forall token | token in s'.issued && token !in s.issued :: !HasToken(t, token))
  }

  lemma SparedTxn(c: Config, s: State, s': State, w: nat, t: Txn)
    requires TxnOk(c, s, w, t) && Spares(s, s', w, t)
    ensures TxnOk(c, s', w, t)
  {
    if t.Lease? {
      assert forall id | id in t.locked :: HoldsLock(t, id);
      forall i | 0 <= i < |t.pending| ensures t.pending[i].pick.token !in s'.issued {
        assert HasToken(t, t.pending[i].pick.token);
      }
    } else if !t.NoTxn? {
      assert HoldsLock(t, t.id);
    }
  }

  // ---------------------------------------------------------------------------------------------------------
  // Commits
  // ---------------------------------------------------------------------------------------------------------

  /** A complete lease is a legal atomic one: the locks have kept every locked row eligible since it was visited. */
  lemma CommitEnabled(c: Config, cs: Server, w: nat)
    requires ServerOk(c, cs) && Complete(c, cs, w)
    ensures Enabled(c, cs.sys, Fetch(w, cs.txns[w].at, PendingPicks(cs.txns[w])))
  {
    var t := cs.txns[w];
    var picks := PendingPicks(t);
    assert TxnOk(c, cs.sys, w, t);
    forall i, j | 0 <= i < j < |picks| ensures picks[i].id != picks[j].id {
      assert PickIds(picks)[i] != PickIds(picks)[j];
    }
    forall i | 0 <= i < |picks| ensures picks[i].id in cs.sys.rows && Eligible(cs.sys.rows[picks[i].id], t.at) {
      assert t.pending[i].pick.id in t.locked;
    }
    assert FreshTokens(cs.sys, picks);
    EligibleGrantable(c, Opened(cs.sys, w, t.at), w, t.at, picks);
  }

  /** Publishing versions made from rows that have not changed since is granting those rows. */
  lemma {:induction false} PublishIsGrant(c: Config, s: State, w: nat, at: Time, pending: seq<Version>,
                                          picks: seq<Pick>)
    requires |pending| == |picks| && forall i | 0 <= i < |picks| :: pending[i].pick == picks[i]
    requires GrantableAll(c, s, w, at, picks) && DistinctIds(PickIds(picks))
    requires forall i | 0 <= i < |pending| ::
               picks[i].id in s.rows && pending[i].row == LeasedRow(s.rows[picks[i].id], picks[i].token, at + c.lease)
    ensures Publish(s, w, at, pending) == GrantAll(c, s, w, at, picks)
    decreases |picks|
  {
    if picks != [] {
      var s1 := Grant(c, s, w, at, picks[0]);
      forall i | 0 < i < |picks| ensures picks[i].id != picks[0].id {
        assert PickIds(picks)[0] != PickIds(picks)[i];
      }
      assert PickIds(picks[1..]) == PickIds(picks)[1..];
      PublishIsGrant(c, s1, w, at, pending[1..], picks[1..]);
    }
  }

  /** Committing the versions a lease has written is exactly the atomic lease statement. */
  lemma CommitIsFetch(c: Config, cs: Server, w: nat)
    requires ServerOk(c, cs) && Complete(c, cs, w)
    ensures var a := Fetch(w, cs.txns[w].at, PendingPicks(cs.txns[w]));
            Enabled(c, cs.sys, a) && StepTo(c, cs, Commit(w)).sys == Apply(c, cs.sys, a)
  {
    var t := cs.txns[w];
    assert TxnOk(c, cs.sys, w, t);
    CommitEnabled(c, cs, w);
    PublishIsGrant(c, Opened(cs.sys, w, t.at), w, t.at, t.pending, PendingPicks(t));
  }

  lemma {:induction false} GrantAllIssues(c: Config, s: State, w: nat, at: Time, picks: seq<Pick>)
    requires GrantableAll(c, s, w, at, picks)
    ensures forall token | token in GrantAll(c, s, w, at, picks).issued && token !in s.issued ::
              exists i | 0 <= i < |picks| :: picks[i].token == token
    decreases |picks|
  {
    if picks != [] {
      var s1 := Grant(c, s, w, at, picks[0]);
      GrantAllIssues(c, s1, w, at, picks[1..]);
      forall token | token in GrantAll(c, s, w, at, picks).issued && token !in s.issued
        ensures exists i | 0 <= i < |picks| :: picks[i].token == token
      {
        if token in s1.issued {
          assert picks[0].token == token;
        } else {
          var i :| 0 <= i < |picks[1..]| && picks[1..][i].token == token;
          assert picks[i + 1].token == token;
        }
      }
    }
  }

  lemma PickedIsLocked(c: Config, s: State, t: Txn)
    requires t.Lease? && PendingOk(c, s, t)
    ensures forall id | id in PickIds(PendingPicks(t)) :: id in t.locked
  {
    forall id | id in PickIds(PendingPicks(t)) ensures id in t.locked {
      var i :| 0 <= i < |t.pending| && t.pending[i].pick.id == id;
    }
  }

  /** A batch of rows and tokens that are not somebody's leaves him alone. */
  lemma GrantsSpare(c: Config, s: State, w: nat, at: Time, picks: seq<Pick>, v: nat, t: Txn)
    requires w < |s.workers| && v != w && GrantableAll(c, Opened(s, w, at), w, at, picks)
    requires forall id | id in PickIds(picks) :: !HoldsLock(t, id)
    requires forall i | 0 <= i < |picks| :: !HasToken(t, picks[i].token)
    ensures Spares(s, GrantAll(c, Opened(s, w, at), w, at, picks), v, t)
  {
    hide Eligible, HoldsLock, HasToken;
    var s0 := Opened(s, w, at);
    var s' := GrantAll(c, s0, w, at, picks);
    GrantAllEffect(c, s0, w, at, picks);
    GrantAllIssues(c, s0, w, at, picks);
    forall id | id in s.rows
      ensures id in s'.rows && s'.rows[id].createdAt == s.rows[id].createdAt
      ensures HoldsLock(t, id) ==> s'.rows[id] == s.rows[id]
    {
      GrantAllFrame(c, s0, w, at, picks, id);
    }
  }

  /** A commit leaves the other transactions their rows and their tokens. */
  lemma CommitSpares(c: Config, cs: Server, w: nat, v: nat)
    requires ServerOk(c, cs) && Complete(c, cs, w) && v < |cs.txns| && v != w
    ensures Spares(cs.sys, StepTo(c, cs, Commit(w)).sys, v, cs.txns[v])
  {
    hide Safe, Spares, ScanOk, Publish, GrantAll, GrantableAll;
    var t, picks := cs.txns[w], PendingPicks(cs.txns[w]);
    assert TxnOk(c, cs.sys, w, t);
    CommitIsFetch(c, cs, w);
    PickedIsLocked(c, cs.sys, t);
    forall id | id in PickIds(picks) ensures !HoldsLock(cs.txns[v], id) {
      assert HoldsLock(t, id);
    }
    forall i | 0 <= i < |picks| ensures !HasToken(cs.txns[v], picks[i].token) {
      assert t.pending[i].pick.token == picks[i].token;
      assert HasToken(t, picks[i].token);
    }
    GrantsSpare(c, cs.sys, w, t.at, picks, v, cs.txns[v]);
  }

  /** Committing a written mark is exactly the atomic mark. */
  lemma CommitMarkIsMark(c: Config, cs: Server, w: nat, reply: Reply)
    requires ServerOk(c, cs) && StepEnabled(c, cs, CommitMark(w, reply))
    ensures var a := Mark(w, reply, cs.txns[w].failedAt, cs.txns[w].backoff);
            Enabled(c, cs.sys, a) && StepTo(c, cs, CommitMark(w, reply)).sys == Apply(c, cs.sys, a)
  {
    hide Safe;
    assert TxnOk(c, cs.sys, w, cs.txns[w]);
  }

  lemma CommitMarkSpares(c: Config, cs: Server, w: nat, reply: Reply, v: nat)
    requires ServerOk(c, cs) && StepEnabled(c, cs, CommitMark(w, reply)) && v < |cs.txns| && v != w
    ensures Spares(cs.sys, StepTo(c, cs, CommitMark(w, reply)).sys, v, cs.txns[v])
  {
    hide Safe;
    assert TxnOk(c, cs.sys, w, cs.txns[w]);
    assert HoldsLock(cs.txns[w], cs.txns[w].id);
  }

  /** Statements outside a transaction touch no row another transaction relies on. */
  lemma PlainSpares(c: Config, cs: Server, a: Action, v: nat)
    requires ServerOk(c, cs) && PlainEnabled(c, cs, a) && v < |cs.txns|
    requires Released(cs.txns, a)[v] == cs.txns[v] != NoTxn
    ensures Spares(cs.sys, Apply(c, cs.sys, a), v, cs.txns[v])
  {
    hide Safe;
    assert TxnOk(c, cs.sys, v, cs.txns[v]);
  }

  // ---------------------------------------------------------------------------------------------------------
  // The invariant
  // ---------------------------------------------------------------------------------------------------------

  /** Locks and pending tokens can only disappear. */
  lemma StillExclusive(cs: Server, cs': Server)
    requires LocksExclusive(cs) && TokensExclusive(cs) && |cs'.txns| == |cs.txns|
    requires forall v | 0 <= v < |cs.txns| :: cs'.txns[v] == cs.txns[v] || cs'.txns[v].NoTxn?
    ensures LocksExclusive(cs') && TokensExclusive(cs')
  {
    assert forall v, id: Id | 0 <= v < |cs'.txns| && HoldsLock(cs'.txns[v], id) :: HoldsLock(cs.txns[v], id);
    assert forall v, token: Token | 0 <= v < |cs'.txns| && HasToken(cs'.txns[v], token) :: HasToken(cs.txns[v], token);
  }

  /** Steps that change the table. */
  lemma TableStepOk(c: Config, cs: Server, st: Step)
    requires ServerOk(c, cs) && StepEnabled(c, cs, st) && (st.Commit? || st.CommitMark? || st.Plain?)
    ensures ServerOk(c, StepTo(c, cs, st))
  {
    hide Safe, TxnOk, Apply, Publish, PublishMark, Spares;
    var cs', a := StepTo(c, cs, st), Amounts(c, cs, st)[0];
    StepIsAction(c, cs, st);
    StepSafe(c, cs.sys, a);
    StillExclusive(cs, cs');
    forall v | 0 <= v < |cs'.txns| ensures TxnOk(c, cs'.sys, v, cs'.txns[v]) {
      if cs'.txns[v].NoTxn? {
        NoTxnOk(c, cs'.sys, v);
      } else {
        if st.Commit? {
          CommitSpares(c, cs, st.w, v);
        } else if st.CommitMark? {
          CommitMarkSpares(c, cs, st.w, st.reply, v);
        } else {
          PlainSpares(c, cs, a, v);
        }
        SparedTxn(c, cs.sys, cs'.sys, v, cs.txns[v]);
      }
    }
  }

  lemma NoTxnOk(c: Config, s: State, w: nat)
    ensures TxnOk(c, s, w, NoTxn)
  {
  }

  lemma StepIsAction(c: Config, cs: Server, st: Step)
    requires ServerOk(c, cs) && StepEnabled(c, cs, st) && (st.Commit? || st.CommitMark? || st.Plain?)
    ensures var a := Amounts(c, cs, st)[0];
            && Amounts(c, cs, st) == [a]
            && Enabled(c, cs.sys, a) && StepTo(c, cs, st).sys == Apply(c, cs.sys, a)
  {
    hide Safe, TxnOk, Publish, PublishMark, Apply;
    match st
    case Commit(w) => CommitIsFetch(c, cs, w);
    case CommitMark(w, reply) => CommitMarkIsMark(c, cs, w, reply);
    case Plain(a) =>
  }

  /** Steps that only open, extend or close a transaction. */
  lemma LockStepOk(c: Config, cs: Server, st: Step)
    requires ServerOk(c, cs) && StepEnabled(c, cs, st) && !(st.Commit? || st.CommitMark? || st.Plain?)
    ensures ServerOk(c, StepTo(c, cs, st))
  {
    hide Safe, TxnOk;
    var cs' := StepTo(c, cs, st);
    OwnTxnOk(c, cs, st);
    LocksStay(c, cs, st);
    TokensStay(c, cs, st);
  }

  lemma OwnTxnOk(c: Config, cs: Server, st: Step)
    requires ServerOk(c, cs) && StepEnabled(c, cs, st) && !(st.Commit? || st.CommitMark? || st.Plain?)
    ensures TxnOk(c, cs.sys, st.w, StepTo(c, cs, st).txns[st.w])
  {
    hide Safe;
    assert TxnOk(c, cs.sys, st.w, cs.txns[st.w]);
    match st
    case Visit(w) => VisitOk(c, cs, w);
    case UpdateRow(w, p) => UpdateOk(c, cs, w, p);
    case _ =>
  }

  lemma VisitOk(c: Config, cs: Server, w: nat)
    requires ServerOk(c, cs) && StepEnabled(c, cs, Visit(w))
    ensures TxnOk(c, cs.sys, w, Visited(cs, w))
  {
    hide Safe, LocksExclusive, TokensExclusive, LockedByOther, Eligible, PendingOk, ScanOk;
    var t, t' := cs.txns[w], Visited(cs, w);
    assert TxnOk(c, cs.sys, w, t);
    ScanGrows(c, cs, w);
    PendingStays(c, cs, w);
  }

  lemma ScanGrows(c: Config, cs: Server, w: nat)
    requires Leasing(cs, w) && !ScanDone(c, cs.txns[w]) && ScanOk(c, cs.sys, cs.txns[w])
    ensures ScanOk(c, cs.sys, Visited(cs, w))
  {
    hide LockedByOther, Eligible;
    var t, t' := cs.txns[w], Visited(cs, w);
    var id := t.snapshot[t.pos];
    assert t.snapshot[..t.pos + 1] == t.snapshot[..t.pos] + [id];
    assert id !in t.snapshot[..t.pos];
  }

  lemma PendingStays(c: Config, cs: Server, w: nat)
    requires Leasing(cs, w) && !ScanDone(c, cs.txns[w]) && PendingOk(c, cs.sys, cs.txns[w])
    ensures PendingOk(c, cs.sys, Visited(cs, w))
  {
    hide LockedByOther, Eligible;
    assert PendingPicks(Visited(cs, w)) == PendingPicks(cs.txns[w]);
  }

  lemma UpdateOk(c: Config, cs: Server, w: nat, p: Pick)
    requires ServerOk(c, cs) && StepEnabled(c, cs, UpdateRow(w, p))
    ensures TxnOk(c, cs.sys, w, Updated(c, cs, w, p))
  {
    hide Safe, LocksExclusive, TokensExclusive;
    var t := cs.txns[w];
    assert TxnOk(c, cs.sys, w, t);
    var t' := Updated(c, cs, w, p);
    assert PickIds(PendingPicks(t')) == PickIds(PendingPicks(t)) + [p.id];
    forall i | 0 <= i < |t.pending| ensures t.pending[i].pick.token != p.token {
      assert !HasToken(t, p.token);
    }
  }

  lemma LocksStay(c: Config, cs: Server, st: Step)
    requires ServerOk(c, cs) && StepEnabled(c, cs, st) && !(st.Commit? || st.CommitMark? || st.Plain?)
    ensures LocksExclusive(StepTo(c, cs, st))
  {
    hide Safe, TxnOk, TokensExclusive;
    var cs' := StepTo(c, cs, st);
    forall v, w, id: Id | 0 <= v < |cs'.txns| && 0 <= w < |cs'.txns|
                          && HoldsLock(cs'.txns[v], id) && HoldsLock(cs'.txns[w], id)
      ensures v == w
    {
      assert v != st.w ==> HoldsLock(cs.txns[v], id);
      assert w != st.w ==> HoldsLock(cs.txns[w], id);
    }
  }

  lemma TokensStay(c: Config, cs: Server, st: Step)
    requires ServerOk(c, cs) && StepEnabled(c, cs, st) && !(st.Commit? || st.CommitMark? || st.Plain?)
    ensures TokensExclusive(StepTo(c, cs, st))
  {
    hide Safe, TxnOk, LocksExclusive;
    var cs' := StepTo(c, cs, st);
    forall v, w, token: Token | 0 <= v < |cs'.txns| && 0 <= w < |cs'.txns|
                                && HasToken(cs'.txns[v], token) && HasToken(cs'.txns[w], token)
      ensures v == w
    {
      assert v != st.w ==> HasToken(cs.txns[v], token);
      assert w != st.w ==> HasToken(cs.txns[w], token);
      if HasToken(cs'.txns[st.w], token) && !(st.UpdateRow? && st.pick.token == token) {
        assert HasToken(cs.txns[st.w], token);
      }
    }
  }

  lemma StepOk(c: Config, cs: Server, st: Step)
    requires ServerOk(c, cs) && StepEnabled(c, cs, st)
    ensures ServerOk(c, StepTo(c, cs, st))
  {
    hide ServerOk;
    if st.Commit? || st.CommitMark? || st.Plain? {
      TableStepOk(c, cs, st);
    } else {
      LockStepOk(c, cs, st);
    }
  }

  // ---------------------------------------------------------------------------------------------------------
  // Refinement
  // ---------------------------------------------------------------------------------------------------------

  ghost predicate ServerRun(c: Config, cs: Server, steps: seq<Step>)
    decreases |steps|
  {
    steps == [] || (StepEnabled(c, cs, steps[0]) && ServerRun(c, StepTo(c, cs, steps[0]), steps[1..]))
  }

  ghost function ServerExec(c: Config, cs: Server, steps: seq<Step>): Server
    requires ServerRun(c, cs, steps)
    decreases |steps|
  {
    if steps == [] then cs else ServerExec(c, StepTo(c, cs, steps[0]), steps[1..])
  }

  /**
   * The atomic run a server run amounts to: a statement counts at its commit, locking and writing count for nothing.
   */
  ghost function Abstract(c: Config, cs: Server, steps: seq<Step>): seq<Action>
    requires ServerRun(c, cs, steps)
    decreases |steps|
  {
    if steps == [] then [] else Amounts(c, cs, steps[0]) + Abstract(c, StepTo(c, cs, steps[0]), steps[1..])
  }

  function ServerInit(start: Time, n: nat): Server {
    Server(Init(start, n), seq(n, i => NoTxn))
  }

  /**
   * Every run with separate lock, write and commit steps, and any number of fetches and marks in flight, is a run of
   * the atomic protocol ending in the same table, workers and log.
   */
  lemma {:induction false} LockingRefinesAtomic(c: Config, cs: Server, steps: seq<Step>)
    requires ServerOk(c, cs) && ServerRun(c, cs, steps)
    ensures ServerOk(c, ServerExec(c, cs, steps))
    ensures ValidRun(c, cs.sys, Abstract(c, cs, steps))
    ensures Exec(c, cs.sys, Abstract(c, cs, steps)) == ServerExec(c, cs, steps).sys
    decreases |steps|
  {
    hide ServerOk, StepTo, Apply, Enabled;
    if steps != [] {
      var st, cs' := steps[0], StepTo(c, cs, steps[0]);
      StepOk(c, cs, st);
      LockingRefinesAtomic(c, cs', steps[1..]);
      var tail := Abstract(c, cs', steps[1..]);
      if st.Commit? || st.CommitMark? || st.Plain? {
        StepIsAction(c, cs, st);
        var a := Amounts(c, cs, st)[0];
        assert Abstract(c, cs, steps) == [a] + tail;
        assert ([a] + tail)[1..] == tail;
      } else {
        LockStepIdles(c, cs, st);
        assert Abstract(c, cs, steps) == tail;
      }
    }
  }

  lemma LockStepIdles(c: Config, cs: Server, st: Step)
    requires StepEnabled(c, cs, st) && !(st.Commit? || st.CommitMark? || st.Plain?)
    ensures StepTo(c, cs, st).sys == cs.sys && Amounts(c, cs, st) == []
  {
  }

  lemma InitOk(c: Config, start: Time, n: nat)
    ensures ServerOk(c, ServerInit(start, n))
  {
    InitSafe(c, start, n);
  }

  /** At every moment of every run, open fetches and marks have locked disjoint sets of rows. */
  lemma OpenFetchesDisjoint(c: Config, start: Time, n: nat, steps: seq<Step>, v: nat, w: nat, id: Id)
    requires ServerRun(c, ServerInit(start, n), steps)
    requires var cs := ServerExec(c, ServerInit(start, n), steps);
             v < |cs.txns| && w < |cs.txns| && v != w && HoldsLock(cs.txns[v], id)
    ensures !HoldsLock(ServerExec(c, ServerInit(start, n), steps).txns[w], id)
  {
    InitOk(c, start, n);
    LockingRefinesAtomic(c, ServerInit(start, n), steps);
  }
}
