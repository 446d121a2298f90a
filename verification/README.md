# Verified model of go-app-kit's outbox, exports, notifications and audit diff

A Dafny model of the parts of go-app-kit in which a mistake loses events, delivers them twice or garbles what is
printed. `dafny verify dfyconfig.toml` checks all of it.

**Transactional outbox** (`outbox/`). A table of events, one clock and any number of relay workers. `LeaseProtocol` runs
`ProcessBatch` in small steps (lease a batch, check the lease, start and end a publish, fenced mark) beside an environment that
inserts rows, advances time, crashes workers and loses acknowledgements. `SkipLocked` runs leases and marks as PostgreSQL does,
visiting and locking rows one by one, writing new versions nobody else sees and committing them, and proves that any number
of them in flight still amount to atomic steps; `SkipOrder` shows which rows such a lease gets and why it passes over others.
`Ledger`, `LeaseSafety`, `DeadLetters`, `Duplicates` and `BackoffRuns` tie the table to the history of a run; `LeaseTiming` and `LeaseTight`
give the exact condition under which no event is published by two workers at once; `BoundedOvertaking`, `OvertakingTight` and
`Recovery` show that no event waits behind failing ones or is stranded. `OutboxStore` and `Relay` are the store and the relay
as classes with their loops, and show that every method call is a sequence of protocol steps.
Where the SQL printed in `docs/adr/0001-outbox-leasing-state-machine.md` and `outbox/README.md` differs from
`outbox/store.go`, the model follows `outbox/store.go`.

**Printers with an inverse.** `Mime` builds the nested multipart message of `notifications/email.go` line by line and proves
that a parser after section 5.1.1 of RFC 2046 reads back exactly its parts and bytes; `Base64` holds the encoding (section 4 of
RFC 4648) and the 76-character wrapper (section 6.8 of RFC 2045). `CsvSanitizer`, `CsvFormat` and `CsvStreamer` model
`export/csv.go` over a buffered writer, with a reader after section 2 of RFC 4180. `Webhook` models signing and verifying in
`notifications/webhook.go`.

**Audit diff.** `StateDiff` models `audit/audit.go`: the diff as a patch that can be applied, undone, composed and replayed.

Where a promised property does not hold for all inputs, the model keeps the code's behaviour and states exactly when it does:

- An email reads back for every reader if and only if there is a display name or the configured From address, which is
  otherwise used unsanitized, is free of CR and LF (`Mime.EveryReaderRoundTrip`; `Mime.BrokenFrom` has two failing addresses).
- A webhook timestamp is accepted within the tolerance, and also when it lies so far ahead that the difference saturates and
  cannot be negated, or with the largest tolerance in the far past (`Webhook.FreshWithinRange`; `Webhook.FarFutureAccepted`
  has a request).
- A diff is a patch unless a field comes to hold an explicit nil (`StateDiff.DiffIsPatch`, `StateDiff.DiffsCompose`,
  `StateDiff.TrailReplays`; `StateDiff.NewNilIsLost`, `StateDiff.BlinkIsLost` and `StateDiff.TrailLosesNil` have the states).
- A CSV file reads back unless it has no columns (`CsvStreamer.FileReadsBack`; `CsvStreamer.NoColumns` has the file); with
  the default CRLF line ends, a field that is quoted reads back as the CSV library rewrote it.
- Workers never publish one event at the same time if and only if a full batch fits in the store's lease; with the default
  settings it does not (`LeaseTight.OverlapExactly`, `LeaseTight.DefaultsCanOverlap`).
- A worker survives every publish error and every panic of the publisher, except an error whose `Error` method panics, such
  as a nil `*NonRetryableError`: that is called outside the recovery and ends the worker for good, with nothing recorded
  (`Relay.Relay.HandlePublishFailure`, `Relay.Relay.Attempt`; `NonRetryable.PrintsExactly` says which errors those are).
- A mark without a token may rewrite a terminal row (`OutboxStore.TerminalKeptIffFenced`), and no run ever touches a row
  inserted with another status than PENDING (`LeaseSafety.InsertedRowFetchedIff`).

## Model

| member | source | states |
|---|---|---|
| LeaseProtocol.StepSafe | outbox/store.go:165-176 | every step, crashes, ticks and lost answers included, keeps the invariant: token, expiry and PROCESSING go together, the retry budget holds, and each item a worker holds matches its row or has expired |
| LeaseProtocol.RunSafe | outbox/relay.go:156-191 | the invariant holds after every run |
| Ledger.RunBooked | outbox/relay.go:97-113 | after every run the rows, the workers' counts and the lease intervals agree with the recorded history |
| LeaseSafety.HeldItemCurrentOrExpired | outbox/relay.go:156-191 | in every reachable state an event a worker still holds agrees with its row in token, expiry, retry count and retry limit, or its own lease has run out |
| LeaseSafety.OneLiveHolder | outbox/store.go:174-176 | in every reachable state at most one worker holds an event on an unexpired lease |
| LeaseSafety.StaleMarkFenced | outbox/store.go:253-259 | while another worker holds a live lease, a late mark changes no row, no history and no count |
| LeaseSafety.RunEvolves | outbox/event.go:26-28 | no id is lost, PUBLISHED and DEAD_LETTER rows never change, retry counts only grow and budgets only shrink |
| LeaseSafety.AtMostOneTerminalStep | outbox/store.go:297-309 | a run takes each row into a terminal status at most once, and exactly once if it ends there |
| LeaseSafety.RowHistory | outbox/relay.go:111-123 | retry_count equals the recorded failures and stays below max(1, max_retries) while live; PUBLISHED means leased, published without error and marked under one token; DEAD_LETTER means a permanent failure or a spent budget; next_retry_at is the inserted value, or the last recorded failure's time, which is past, plus a bounded backoff |
| LeaseSafety.LeasesNeverOverlap | outbox/store.go:167-174 | a second lease of an event starts only after the first one, which runs from its statement for the configured time, has expired or a failure was recorded in between |
| LeaseSafety.BatchCount | outbox/relay.go:155-191 | a worker's count plus its lost acknowledgements equals the marks made under its batch's tokens, at most one per event |
| LeaseSafety.NeverStranded | outbox/store.go:167-168 | in every reachable state a row is eligible at a time if and only if it is not terminal and its expiry and retry time have passed |
| LeaseSafety.StrayRowStays | outbox/store.go:167-168 | no run changes a row without a lease that is not PENDING |
| LeaseSafety.InsertedRowFetchedIff | outbox/store.go:133-145 | Insert stores the status unchanged, and some run ever touches the row if and only if it is PENDING |
| LeaseSafety.MarksWithinBudget | outbox/relay.go:111-113 | without inserts, all marks of all workers together are paid for by the table's remaining budget |
| Duplicates.RunBalanced | outbox/relay.go:169-181 | over any run, what the successful publishes of an event gain is recorded, lost with a crash, a refused or a fenced-out mark, or still to be recorded |
| Duplicates.DeliveriesAccounted | outbox/relay.go:169-181 | in every run the successful publishes of an event are the recorded one, which exists exactly for a PUBLISHED row and is the only one, plus those lost and those about to be recorded |
| DeadLetters.DeadExactly | outbox/relay.go:110-139 | in every run a recorded failure is final if and only if its publish ended with a permanent error or it uses up max_retries, and a row is DEAD_LETTER if and only if such a failure was recorded for it |
| SkipLocked.CommitIsFetch | outbox/store.go:165-176 | committing the row versions a lease has written is the protocol's atomic fetch, because the locks kept the rows as they were |
| SkipLocked.CommitMarkIsMark | outbox/store.go:297-309 | committing the row version a mark has written under its row lock is the protocol's atomic mark |
| SkipLocked.LockingRefinesAtomic | outbox/store.go:165-176 | every interleaving of visits, locks, row writes, commits and aborts of any number of fetches and marks is a run of the atomic protocol |
| SkipLocked.OpenFetchesDisjoint | outbox/store.go:170-171 | at every moment open fetches and marks have locked disjoint rows |
| SkipOrder.CommitIsOldest | outbox/store.go:167-171 | whatever else is in flight, a commit leases an oldest batch, up to the limit, of the rows it did not pass over |
| SkipOrder.PassedOverForCause | outbox/store.go:165-171 | in every run a row is passed over only if, when the lease took its snapshot or came to that row, another transaction had it locked or it was not eligible; the lease has been open ever since |
| SkipOrder.EveryCommitIsOldest | outbox/store.go:165-176 | both of these, at every commit of every run |
| SkipOrder.UndisturbedFetch | outbox/store.go:165-176 | a fetch nobody interferes with can run to its commit and leases an oldest batch of the whole table, in whatever order it returns |
| LeaseTiming.OverlapOnlyAfterExpiry | outbox/relay.go:97-107 | when publishers keep the timeout, two workers publish one event together only in the window of that timeout after an expired lease |
| LeaseTiming.NoOverlapIfFits | outbox/relay.go:163-169 | if a full batch fits in the store's lease, no two publishes of an event overlap in any timed run |
| LeaseTiming.SimpleFit | outbox/relay.go:163-169 | batch size times publish timeout plus mark time within the lease is enough |
| LeaseTight.OverlapExactly | outbox/store.go:160-174 | some timed run overlaps two publishes if and only if the batch does not fit |
| LeaseTight.DefaultsCanOverlap | outbox/relay.go:56-67 | batches of 50, a 5 s timeout and a 60 s lease allow an overlap; the run is constructed |
| BoundedOvertaking.OvertakenAtMost | outbox/store.go:167-170 | with any number of workers, an eligible row is passed over by at most (B - 1) / limit batches, B being the budget of the rows no younger than it |
| BoundedOvertaking.LeasedWithinBudget | outbox/relay.go:110-139 | failing events cannot stall the queue: the row is leased within floor(B / limit) + 1 batches, whichever workers take them |
| BoundedOvertaking.CommitUnpassed | outbox/store.go:165-171 | a commit amid any other transactions is such a batch for every row its lease did not pass over |
| OvertakingTight.BudgetNeeded | outbox/relay.go:111-113 | for every batch size and every B of one batch of older rows, a calm run lets exactly floor((B - 1) / limit) batches by, so the bound is attained and none holds without the budget |
| OvertakingTight.OrderNeeded | outbox/store.go:169 | for every batch size, with full batches in any other order than oldest-first, a row is passed over any number of times although B is 1 |
| Recovery.EveryRowCanBePublished | outbox/store.go:118-176 | from every reachable state some continuation of worker steps and ticks, without crashes and with oldest-first fetches, publishes every live row and touches no terminal one |
| Recovery.FinishBatch | outbox/relay.go:156-194 | every busy worker can go on to the end of its batch, changing rows only by publishing them |
| Backoff.BackoffWithJitter | outbox/retry.go:14-48 | no step leaves the int64 range, the draw has a positive bound, and the delay lies between 0 and the ceiling |
| Backoff.EveryDelayDrawn | outbox/retry.go:39-48 | full jitter: every delay up to the ceiling can be drawn, but for the largest int64 |
| Backoff.CeilingExact | outbox/retry.go:18-36 | the ceiling is base times 2 to the min(attempt, 30), saturated at the largest int64 and at a positive maximum |
| Backoff.CeilingMonotone | outbox/retry.go:18-36 | later attempts never have a lower ceiling |
| Backoff.TotalBackoff | outbox/retry.go:14-48 | the first k delays of an event add up to at most base times (2^k - 1), and to at most k times a positive maximum |
| BackoffRuns.RunBackoff | outbox/relay.go:115-123 | in every run the recorded delays of an event's first k failures obey both bounds, whichever workers drew them |
| NonRetryable.NonRetryableExactly | outbox/retry.go:100-109 | an error is permanent if and only if something in its tree of wrapped and joined errors is the sentinel, is marked, or says so by its own Is or As method |
| NonRetryable.MarkedStays | outbox/retry.go:50-88 | a marked error, and a poison pill unmarked, make every error permanent that contains them at any depth; marking nil gives nil |
| NonRetryable.PrintsExactly | outbox/retry.go:63-68 | an error can be printed if and only if no nil marking pointer and no type that panics is marked or joined in it; behind a `%w` they do no harm |
| OutboxStore.LeaseInForce | outbox/store.go:63-71 | whatever the options, the last positive one decides and the whole-second lease is at least 5 s and less than a second short of it |
| OutboxStore.PgStore.constructor | outbox/store.go:90-104 | the options are applied in order to the 60 s default |
| OutboxStore.PgStore.Insert | outbox/store.go:107-150 | if answered, a new row is stored as given, due at its retry time, else its scheduled time, else now; an existing id is an error and is never overwritten |
| OutboxStore.PgStore.FetchPendingBatch | outbox/store.go:180-238 | what the lease in the database has ready is committed, an oldest batch up to the limit (50 if not positive) of the rows it did not pass over; there is no error exactly if it is ready, answered and read to the end, and then its items are returned; with an error none are, although they may be leased |
| OutboxStore.PgStore.MarkPublished | outbox/store.go:242-277 | every column of the one row that is hit, and the error: none if answered and hit, an expired lease if answered and no row has this id and, if it is real, this token, a database error otherwise |
| OutboxStore.PgStore.MarkFailed | outbox/store.go:281-333 | the same for failures: status, count, retry time and lease |
| OutboxStore.FreshInsertIsProtocolInsert | outbox/event.go:50-74 | what NewEvent builds, Insert stores as the protocol's pending row, due at once, with five retries unless a number of zero or more is given |
| OutboxStore.TerminalKeptIffFenced | outbox/store.go:253-323 | MarkFailed leaves a terminal row alone if and only if it passes a real token, MarkPublished if and only if it does or the row already says the same |
| OutboxStore.FencedMarkIsProtocolMark | outbox/store.go:253-259 | a fenced statement changes the rows exactly as the protocol's mark does |
| OutboxStore.LeaseIsProtocolFetch | outbox/store.go:165-176 | one statement leasing a batch is the protocol's fetch: rows, tokens and returned items |
| OutboxStore.LeaseAllExactly | outbox/store.go:172-176 | one statement sets status, expiry and token of exactly the picked rows and returns each with its counts |
| Relay.DefaultedAccepted | outbox/relay.go:49-87 | an accepted configuration is usable, and validation changes exactly those that are not |
| Relay.RelayConfig.Validate | outbox/relay.go:49-87 | the error that is returned, and on success every setting with its default |
| Relay.RecoveredOutcome | outbox/relay.go:101-105 | only a nil error is a success, a panic is a failure worth retrying, an error is as permanent as what it wraps |
| Relay.NextBackoff | outbox/relay.go:115-122 | the delay never exceeds base times 2^min(attempt, 30) nor the maximum, which is a minute if not positive and at least the base; any delay up to that may be drawn |
| Relay.Relay.Fetch | outbox/relay.go:144-152 | on success the worker holds the batch its lease had ready, under tokens never seen before; if the answer is lost it holds nothing |
| Relay.Relay.LeaseExpired | outbox/relay.go:163-167 | an event is skipped if and only if its lease has run out on the clock |
| Relay.Relay.PublishWithRecovery | outbox/relay.go:97-108 | the publisher's error, or an error for its panic, is what is recorded for the event |
| Relay.Relay.MarkPublished | outbox/relay.go:170-181 | without an error the row that still carried this lease is PUBLISHED now and free, and nothing else changed; with one the call is over |
| Relay.Relay.HandlePublishFailure | outbox/relay.go:110-140 | without an error the row has one failure more than the snapshot, is DEAD_LETTER if and only if that was its last attempt or something in the error's tree is permanent and PENDING otherwise, and is due after the delay that was drawn; the call panics, with nothing recorded, if and only if the publish error cannot be printed |
| Relay.Relay.Attempt | outbox/relay.go:163-191 | an event is skipped if and only if its lease has run out; a counted one is settled under its token and its row shows what the publisher did; a failed success mark stops the call, and an event ends the worker if and only if it was published and its error cannot be printed |
| Relay.Relay.ProcessBatch | outbox/relay.go:144-195 | the count is the number of rows this call moved out of PROCESSING, or less by lost acknowledgements, also when it is cut short; there is an error if and only if a statement reported one, the context was cancelled before the last event or the call panicked; without one the batch is an oldest one of the rows the lease did not pass over, and each of its events is settled or had expired; the budget of a closed table drops by at least the count |
| Relay.Relay.Dispatch | outbox/relay.go:154-194 | the loop over the events ends with every one settled or expired, or with an error, which there is exactly if a mark failed, the context was cancelled before the last event or the call panicked |
| Relay.Relay.Drain | outbox/relay.go:221-261 | batches follow at once exactly as long as they are full, free of errors after the first and not cancelled, and the worker lives on exactly if the last one returned; on a closed table the loop ends, all but its last batch paid for by batch-size budget, whatever the publisher does and without backoff |
| Base64.DecodeEncode | notifications/email.go:62 | decoding the encoding gives back every byte string |
| Base64.WriteBase64 | notifications/email.go:61-68 | the loop appends exactly the wrapped lines |
| Base64.Base64Written | notifications/email.go:61-68 | at most 76 characters a line, max(1, ceil(n / 76)) lines, no line starts with a dash, and without the line breaks they decode to the bytes |
| Mime.SanitizeCRLF | notifications/email.go:49-51 | the result has no CR or LF, and a string without any is left alone |
| Mime.SanitizeDropsOnly | notifications/email.go:49-51 | exactly the CRs and LFs are dropped and the rest keeps its order |
| Mime.FormatAttachmentFilename | notifications/email.go:74-81 | a name of ASCII characters only is quoted, any other becomes an encoded word |
| Mime.EmailSender.SanitizedRecipients | notifications/email.go:119-125 | the recipients without line breaks, in order, less those that come out empty |
| Mime.RecipientsKept | notifications/email.go:119-125 | each recipient is kept in its place, trimmed and without CR and LF, unless nothing is left of it |
| Mime.JoinSeparates | notifications/email.go:131 | wherever the list is cut, a comma and a blank stand between its parts |
| Mime.EmailSender.WriteContent | notifications/email.go:163-186 | appends the plain part, or the alternative with both parts between its boundaries |
| Mime.EmailSender.WriteAttachment | notifications/email.go:189-202 | appends boundary, headers and bytes of one attachment |
| Mime.EmailSender.BuildMIMEMessage | notifications/email.go:111-209 | the buffer ends up holding exactly the message's lines |
| Mime.AltIsNotMixed | notifications/email.go:153-154 | whatever the random suffixes, no line of the alternative boundary matches the mixed one |
| Mime.AltSplits | notifications/email.go:163-180 | splitting at the alternative boundary gives exactly the plain and the HTML part |
| Mime.AttachmentsSplit | notifications/email.go:188-206 | splitting at the mixed boundary gives one part per attachment, in order |
| Mime.MessageParses | notifications/email.go:111-208 | the printed lines parse to the nested parts with their headers and decoded bytes |
| Mime.MessageClean | notifications/email.go:114-149 | whatever the fields hold, no line after From can be broken into two |
| Mime.MimeRoundTrip | notifications/email.go:111-208 | for readers that end lines at CRLF, at LF, or at CR and LF alike, the text reads back as the message if and only if that reader takes the From line for one line |
| Mime.EveryReaderRoundTrip | notifications/email.go:114-117 | all readers get the message back if and only if there is a display name or the address is free of CR and LF |
| Mime.BrokenFrom | notifications/email.go:114-117 | an address with CRLF that no reader reads back, and one with a bare LF that only the strict one does |
| Mime.TopValues | notifications/email.go:129-149 | a reader who looks up From, Subject, Date, Message-ID and MIME-Version finds the sender, the encoded title, the date of the message or else of sending, and an id at the configured host, the machine's or localhost |
| Mime.ToReadsBack | notifications/email.go:131 | a reader who splits the To value at the commas gets exactly the cleaned recipients in order, if the separator is in none of them |
| Mime.AttachmentValues | notifications/email.go:191-199 | a reader finds each attachment's sanitized type, or the default one, its quoted or encoded file name and its encoding |
| Mime.PartTypes | notifications/email.go:158-183 | the types a reader finds on text parts and on the parts made of others, and the encoding of all text |
| Mime.EnvelopeIsTo | notifications/email.go:90-100 | cleaning the recipients twice changes nothing, so To names exactly the envelope's recipients |
| CsvSanitizer.TrimLeadingCSVWhitespace | export/csv.go:125-139 | the loop computes the trimmed string |
| CsvSanitizer.TrimmedIsLongest | export/csv.go:122-139 | what is trimmed is the longest prefix made of blanks, LF, CRLF and no-break spaces, given as bytes |
| CsvSanitizer.SanitizesExactly | export/csv.go:141-169 | a quote is put before exactly the cells in which a formula follows nothing but white space |
| CsvSanitizer.Sanitize | export/csv.go:147-169 | the code with its trimming call quotes exactly the dangerous cells |
| CsvSanitizer.SanitizedIsSafe | export/csv.go:141-169 | no sanitized cell is dangerous, and sanitizing twice is sanitizing once |
| CsvSanitizer.NumbersKept | export/csv.go:160-165 | signed numbers are kept behind any leading white space |
| CsvFormat.CsvRoundTrip | export/csv.go:76-78 | records read back field by field if and only if none is empty, for any delimiter rune and any extra quoting |
| CsvStreamer.SettingsInForce | export/csv.go:25-58 | of the settings for one option the last is in force, or the default: comma, CRLF, mark, 100 rows, sanitizing |
| CsvStreamer.CSVStreamer.constructor | export/csv.go:70-86 | the settings are applied in order to the defaults, and nothing is written |
| CsvStreamer.CSVStreamer.WriteHeader | export/csv.go:89-120 | mark and header are written once and flushed; a refused delimiter leaves the mark and an error |
| CsvStreamer.CSVStreamer.WriteRow | export/csv.go:172-201 | header first if it is due, then the row of column values in the order of the columns; at every multiple of a positive flush interval nothing stays buffered |
| CsvStreamer.CSVStreamer.WriteRows | export/csv.go:204-211 | all rows in order, up to the first error |
| CsvStreamer.CSVStreamer.RowCount | export/csv.go:214-216 | the number of rows written |
| CsvStreamer.CSVStreamer.Flush | export/csv.go:219-222 | everything written so far is sent, and nothing else |
| CsvStreamer.CSVStreamer.Close | export/csv.go:225-227 | the same as Flush |
| CsvStreamer.RowConsistent | export/csv.go:188-198 | a row keeps sent plus buffered bytes equal to the history, with all but the rows since the last flush interval sent |
| CsvStreamer.HistoryOfCalls | export/csv.go:89-222 | any mix of calls amounts to one mark, one header if anything was written, and all rows in order; with a refused delimiter to one mark per call that had something to write |
| CsvStreamer.FileReadsBack | export/csv.go:89-222 | after any calls that wrote something the file reads, behind its mark, as one record of headers and one for each item, field i being column i's header or value with an apostrophe exactly if sanitizing is on and it is dangerous, if and only if there is a column; with CRLF line ends a field may be rewritten |
| CsvStreamer.NoFormulaWritten | export/csv.go:101-108 | with sanitization on no header or row cell is dangerous to open, and with LF line ends no field of the file read back is |
| CsvStreamer.NoColumns | export/csv.go:101-118 | without columns the header is an empty line, which reads as one empty field |
| CsvStreamer.RefusedFile | export/csv.go:94-112 | with a delimiter the library refuses, the file holds one mark for each call that had something to write |
| StateDiff.ComputeDiff | audit/audit.go:93-116 | both loops, in any map order, give exactly the fields that one state lacks or that differ, each with its old and new value, nil where it was absent |
| StateDiff.DiffIsPatch | audit/audit.go:92-116 | applying the diff to the earlier state gives the later one if and only if no field comes to hold an explicit nil |
| StateDiff.NewNilIsLost | audit/audit.go:108-113 | a field set to nil in an empty state is lost by the patch |
| StateDiff.SwappedDiff | audit/audit.go:92-116 | swapping the states swaps the two sides of every entry, and the reversed diff undoes the change under the mirrored condition |
| StateDiff.EmptyDiff | audit/audit.go:92-116 | the diff is empty if and only if the states have the same fields with equal values |
| StateDiff.DiffsCompose | audit/audit.go:92-116 | the diffs of two steps compose to the diff of both if and only if no field goes between absent and an explicit nil by way of a value |
| StateDiff.BlinkIsLost | audit/audit.go:97-113 | a field set and then set to nil composes to no entry although the direct diff has one |
| StateDiff.TrailReplays | audit/audit.go:92-116 | replaying all diffs from the first state gives the last one if and only if every explicit nil at the end was there all along |
| StateDiff.TrailLosesNil | audit/audit.go:97-106 | a trail whose last state sets a field to nil replays to a state without it |
| StateDiff.EventDiff | audit/audit.go:123-126 | an event has no diff if and only if neither state is given, and otherwise that of the states, a missing one being empty |
| Webhook.ParseTaggedSignature | notifications/webhook.go:165-184 | the pass over the parts finds the first timestamp, unless the header has one, and the last signature |
| Webhook.TaggedReading | notifications/webhook.go:165-184 | for any list of comma-separated parts: the header's timestamp or else the first part that has one, and the last `v1=` part if it is not empty |
| Webhook.TrimmedExactly | notifications/webhook.go:128 | trimming takes white space off both ends and all of it |
| Webhook.WebhookVerifier.constructor | notifications/webhook.go:155-163 | the tolerance is positive, five minutes if none is given |
| Webhook.WebhookVerifier.Verify | notifications/webhook.go:192-233 | the saturating difference and its wrapping negation accept exactly the fresh timestamps; errors in the order of the checks |
| Webhook.FormatsAgree | notifications/webhook.go:117-145 | any digest as `v1=`, `sha256=` and tagged with or without the header: a timestamp is seconds up to 10^11, milliseconds above, or an RFC 3339 date, and invalid otherwise; a stale one has expired; then exactly the right digest is accepted |
| Webhook.MillisecondsAccepted | notifications/webhook.go:132-136 | a right signature over a number above 10^11 is accepted exactly while these milliseconds lie within the tolerance |
| Webhook.MissingParts | notifications/webhook.go:192-203 | a blank signature or no secret is an invalid signature, a blank header beside a plain signature a missing timestamp |
| Webhook.FreshWithinRange | notifications/webhook.go:213-220 | fresh means within the tolerance for all differences an int64 can hold and negate; beyond them exactly which timestamps slip through |
| Webhook.FarFutureAccepted | notifications/webhook.go:213-220 | a concrete request 292 years ahead of the clock that is accepted |
| Webhook.MessageBinds | notifications/webhook.go:119-120 | the signed message determines timestamp and payload for all timestamps Verify accepts |
| Webhook.SignatureBinds | notifications/webhook.go:115-122 | one signature is accepted for one timestamp and payload only, short of a collision of the digest |
| Webhook.DeliveryAccepted | notifications/webhook.go:87-95 | Send signs the whole second it is sent in; a receiver with the secret accepts it exactly while that second is fresh |

## Left out

- PostgreSQL is taken at its word: a lease statement skips locked rows, re-checks its condition on the version it locks, and keeps its locks and its uncommitted row versions to itself until it commits; updates wait for locks; `gen_random_uuid` gives tokens never used before. SQL text, table-name checks and initialisation errors are not modelled.
- Columns the protocol never reads (aggregate, type, payload, last_error, scheduled_at) and `UnmarshalPayload`, `MarkDeadLetter` and `IsDeadLetter` of `outbox/event.go`.
- One clock serves database and workers; `RelayConfig.LeaseDuration` is validated but, as in the source, never reaches the store, so the timed results use the store's own lease.
- Driver errors are answers of the store that may come at any time; `Seconds()` of a duration is taken as exact.
- BoundedOvertaking.LeasedWithinBudget: is about workers whose marks all succeed and whose leases do not run out while they hold the event, no lease passing over the row, and no older row inserted; otherwise a younger row may overtake again.
- LeaseTight.OverlapExactly: asks for two workers, a positive batch and lease, and two units of time between starting a publish and its timeout, without which no overlap can be placed between two clock ticks.
- Dead branches of the source (a lease below 5 s after the options, a non-positive number of lease seconds, a non-positive backoff ceiling) are proved or noted to be unreachable and have no code in the model.
- Goroutine start-up, tickers, logging and context plumbing; a cancelled context is a choice the loops may take at each check.
- Relay.Relay.ProcessBatch: is given what goes on in the database when its lease commits, any state of transactions that keeps the locking invariant; that a row is passed over only for cause is stated over the runs of `SkipOrder`.
- Relay.Relay.Drain: covers one tick of a worker on a table without inserts; with inserts the loop may go on as long as full batches keep arriving.
- Recovery.EveryRowCanBePublished: a worker caught with a failure it has not recorded yet goes on after the database refuses that one mark.
- The word encoders, `%q` quoting, trimming, date format, message id and random suffixes of the email builder are parameters assumed not to break lines, the clock and the machine's name any parameters; SMTP sending is not modelled.
- Mime.MimeRoundTrip: the reader recognises the headers this builder prints and is not a general MIME parser.
- CsvStreamer.FileReadsBack: a row of one empty cell is printed as a blank line, which the reader of the model returns as one empty field; readers that skip blank lines lose such a row.
- Go's CSV writer is not part of this model: it is any writer after RFC 4180 that may quote more fields than it must, refuse delimiters and spill its buffer early. With CRLF line ends it may rewrite quoted fields, so those read back as rewritten. Writers that fail are not covered.
- `strconv.ParseFloat` and the trimming before it are one predicate on byte strings.
- StateDiff.DiffIsPatch: `reflect.DeepEqual` is a comparison that is symmetric and transitive, treats nil as equal only to nil, and need not be reflexive.
- Webhook.FormatsAgree: HMAC-SHA256 in hexadecimal is any function into 64 hex digits, RFC 3339 dates are a parameter of which only this is used, that no accepted date goes on after a dot as another one, and the constant-time comparison is equality.
- Webhook.WebhookVerifier.Verify: strings are sequences of runes; malformed UTF-8 is not modelled.
- Webhook headers and HTTP, and the Slack, SMS, WhatsApp, Brevo, broker, pdf and invoice code: network clients, policies of a library that is not part of this model, or sums that would only add easy members.
