# A verified model of the geography service's mutation protocol

The service keeps a catalogue of regions and of zones that refer to them. Mutations are asynchronous: a request is
validated, an operation row is written, and a worker runs one database transaction that changes one row and appends
one row to an audit outbox. Owners may cancel operations, the process may crash at any point, and a reconciler
finishes what was orphaned. Clients list the catalogue page by page. This project models those parts in Dafny and
proves what holds in every run.

`dafny verify dfyconfig.toml` checks all of it.

## How it is organised

| file | part |
|---|---|
| `Domain.dfy`, `Slugs.dfy` | resources, validation, partial updates, the id language |
| `Database.dfy`, `AuditLog.dfy`, `Consistency.dfy` | tables and outbox as a transaction step system; replaying the outbox; the invariant over in-flight transactions and locks |
| `AuditTheorems.dfy`, `LastWriter.dfy`, `CatalogueRules.dfy`, `Races.dfy` | what a log reader, a row reader and two contestants may rely on |
| `Serial.dfy` | the sequence numbers as a serialization order of the committed transactions |
| `Repositories.dfy` | the repository methods, run step by step beside other sessions |
| `OperationStore.dfy`, `Resolver.dfy`, `UseCases.dfy` | the in-memory operation store, the owner-scoped handler, orphan resolution, request intake |
| `Lro.dfy`, `LroTheorems.dfy` | the whole protocol: requests, workers, cancels, crashes, sweeps |
| `Sweeps.dfy`, `Recovery.dfy`, `Witnesses.dfy` | the reconciler, when it tells and stores the truth, and runs that show what not to expect |
| `Base64.dfy`, `Json.dfy`, `Utf8.dfy`, `PageToken.dfy` | the page token down to its bytes |
| `JsonGrammar.dfy`, `JsonLanguage.dfy`, `TokenLanguage.dfy` | the grammar of JSON texts, and which tokens are accepted |
| `Paging.dfy`, `Listing.dfy` | keyset pages, scans of a changing catalogue |
| `Shutdown.dfy` | the goroutines that end the process |

A transaction is never one atomic step. It begins, executes its statement (and holds the row from then on), emits its
outbox row (and draws the next sequence number), then commits or fails; other transactions run in between. So numbers
commit out of order and leave gaps. The proof that the outbox still replays to the tables rests on one fact about
every in-flight transaction: after the number it drew, nothing on its row has been logged, and no reader can have seen
its region go.

## What is assumed

These are guards of steps, taken from what the repository documents or tests, since the code is elsewhere:

* Postgres: a written row is held to the end of the transaction; a zone insert or re-point holds a share lock on its
  region's key; a region delete waits for such holders and for pending deletes of the zones in its way, and fails
  while a committed zone refers to it (`internal/repo/kacho/pg/integration_test.go:240-246`). A wait that does not end
  is a transient failure. A commit may take effect although its acknowledgement is lost.
* The production operation store: every terminal write is a compare-and-set on `done`
  (`internal/repo/kacho/pg/operation_owner_integration_test.go:123-178`). Operation ids are fresh.
* The runner starts a worker's closure at most once and stores its result, or gives up storing it, only after the
  worker's transaction has ended at the server; a commit that lands after its worker reported a lost connection is not a
  run of the model. An operation and the transaction of its worker carry the same name in the model, so that an operation
  has at most one transaction is part of this assumption.
* The reconciler looks at open operations and settles them. Its grace period is not assumed: a sweep may look at an
  operation whose worker is alive.
* The order of ids is some strict total order; it need not be bytewise.
* A gRPC `Serve` that was entered before the `GracefulStop` of its server began may fail by itself, and is otherwise
  released with nil when the stop has ended; one entered later returns the stopped-server error. `GracefulStop` returns.

## Where the code is followed against its texts

* Ids have up to 63 bytes, the region of a zone can be changed, and mutations are asynchronous.
* A page token gives its id back only if the id is well-formed UTF-8, because the JSON writer replaces other bytes.
* An orphaned update is reported as done without having run; the exact condition, in terms of the resource's presence at
  acceptance, under which the reconciler finds and stores the truth is a theorem. Once the worker is gone, a look is safe
  exactly when no commit is under way; a look at a live worker that holds its row is never safe.
* A cancelled operation can still take effect; for a dead worker it can exactly when the worker drew its number.
* The in-memory operation store does not guard its finishing calls; the exact condition under which they are harmless is
  a theorem.
* A shutdown without a failing listener ends with the stopped-server error exactly when the public Serve is called after
  the stop of its server began.
* A worker whose commit lost its acknowledgement reports an error although the row exists.

## Model

| member | source | states |
|---|---|---|
| Consistency.StepKeepsInv | internal/repo/kacho/pg/region.go:112-178 | Every step of every transaction keeps the invariant: holders of row locks are pairwise apart and what they computed is still what their statement would compute, a region that gets a zone is not being deleted, the tables are the fold of the committed outbox, and each drawn sequence number is still free and its row unwritten at later numbers |
| Consistency.ReachableInv | internal/repo/kacho/pg/zone.go:89-173 | The invariant holds in every state that any interleaving of transactions can reach |
| AuditTheorems.ReplayRebuildsTables | internal/migrations/0001_initial.sql:45-53 | In every reachable state, folding the committed outbox rows in sequence order, with gaps and late commits, gives both tables on every column but created_at |
| AuditTheorems.LastRowTells | internal/migrations/0001_initial.sql:45-53 | The committed row with the highest number on a resource tells its present state: absent if there is none or it is DELETED, and otherwise present with exactly the recorded name, and for a zone region and status |
| AuditTheorems.PrefixesAreClosed | internal/migrations/0001_initial.sql:28-31 | Every sequence-ordered prefix of the committed outbox replays to a catalogue in which each zone's region exists |
| AuditTheorems.ResourceLifecycle | internal/repo/kacho/pg/zone.go:102-171 | Per resource the committed events are a prefix of (CREATED UPDATED* DELETED)*, the last is not DELETED exactly when the row exists, and CREATED minus DELETED is 1 or 0 accordingly |
| AuditTheorems.EventsCountRows | internal/repo/kacho/pg/region.go:123-176 | Over all resources CREATED minus DELETED is the number of stored rows |
| AuditLog.LifecycleLanguage | internal/repo/kacho/pg/zone.go:102-171 | The conditions of the lifecycle describe exactly the prefixes of (CREATED UPDATED* DELETED)* |
| Serial.OutboxOrderIsSerial | internal/repo/kacho/pg/region.go:115-177 | The sequence numbers are a serialization order: in every reachable state, the statements of the committed transactions run one after another in that order from empty tables all succeed, each writing what it wrote, and give the present tables, created_at included |
| AuditTheorems.RowsBelongToTransactions | internal/repo/kacho/pg/region.go:115-128 | Committed transactions and committed outbox rows correspond one to one, and each row is the one its statement and actor call for |
| AuditTheorems.PrefixFinalIffSettled | internal/migrations/0001_initial.sql:45-46 | The outbox rows below a drawn number are final in every continuation if and only if no open transaction has drawn a smaller number |
| AuditTheorems.CommitsOutOfOrder | internal/migrations/0001_initial.sql:45-46 | A reachable state in which number 1 is committed while number 0 is still open, so a reader that resumes after the last number it saw can miss a row |
| AuditLog.ReplayLateCommit | internal/migrations/0001_initial.sql:45-53 | A row committed into a gap of the sequence has the effect of being folded last if its resource is not written at later numbers |
| LastWriter.LatestIsStored | internal/repo/kacho/pg/zone.go:129-150 | The stored row, created_at included, is what the committed transaction with the highest number on it wrote |
| CatalogueRules.ForeignKeyIsExact | internal/migrations/0001_initial.sql:28-31 | On a sound table a statement succeeds if and only if its own row allows it and every zone's region exists afterwards; it fails its precondition exactly when the second part fails |
| CatalogueRules.ReachableRowsAreValid | internal/domain/geo.go:86-133 | If every transaction ran a validated statement, stored ids and region ids are slugs of at most 63 bytes, names have at most 253 runes, and a zone's status is UP or DOWN |
| LroTheorems.RowsDescendInService | internal/repo/kacho/pg/zone.go:131-136 | As long as a resource is present in a run of the service, its created_at is constant and a non-empty name never becomes empty |
| LroTheorems.CreatedAtIsAStart | internal/repo/kacho/pg/zone.go:93-98 | In every run, the created_at of every stored row is the time of some worker's start in that run |
| CatalogueRules.SuccessiveUpdates | internal/apps/kacho/api/zone/zone.go:167-185 | Two successful partial zone updates leave the row that one update leaves in which the later non-empty fields win |
| CatalogueRules.EmptyUpdate | internal/repo/kacho/pg/zone.go:131-136 | An update request with no field given leaves the stored row as it is; it is logged like any other |
| Races.InsertVersusDelete | internal/repo/kacho/pg/integration_test.go:232-296 | A zone insert racing the delete of its zone-less region, among transactions that at most rename the region: in every interleaving exactly one commits, the other fails its precondition, and no orphan zone remains |
| Races.OneCreateWins | internal/repo/kacho/pg/region.go:112-133 | Of any number of creates of one id of which no delete takes effect and that do not fail transiently, exactly one commits and every other is refused as already existing |
| Repositories.RegionRepo.Insert | internal/repo/kacho/pg/region.go:112-133 | Success means the tables it saw lacked the id and no fault struck; the row is stored with the given name and time, the result is that row, and the outbox has exactly one CREATED row with its image and actor. It is refused as existing exactly when the tables it saw have the id; without a fault every other failure is internal and due to a lock in the way. A failure wrote nothing unless only the commit acknowledgement was lost |
| Repositories.RegionRepo.Update | internal/repo/kacho/pg/region.go:138-159 | An absent name keeps the stored one, created_at is kept, and the stored row, the result and the one UPDATED outbox row agree; not found exactly when the tables it saw lack the id; other failures as for Insert |
| Repositories.RegionRepo.Delete | internal/repo/kacho/pg/region.go:163-178 | Success means the region was there without zones and is gone, and the outbox has exactly one DELETED row; not found exactly when the tables it saw lack the id, and refused for its precondition exactly when they have a zone in the region; other failures as for Insert |
| Repositories.ZoneRepo.Insert | internal/repo/kacho/pg/zone.go:89-114 | As for regions; refused for its precondition exactly when the tables it saw lack both the id and the region; the region of a stored zone exists, and the returned status is the given one when it is UP or DOWN and unspecified otherwise |
| Repositories.ZoneRepo.Update | internal/repo/kacho/pg/zone.go:120-155 | Exactly the given fields replace those of the row the statement saw, created_at is kept, the zone's region exists afterwards, and the one UPDATED outbox row holds the stored image; not found exactly when the tables it saw lack the id, and refused for its precondition exactly when a region is given that they lack |
| Repositories.ZoneRepo.Delete | internal/repo/kacho/pg/zone.go:158-173 | Success means the zone was there and is gone and the outbox has exactly one DELETED row; not found exactly when the tables it saw lack the id |
| Repositories.LostAttributionShows | internal/repo/kacho/pg/region.go:31-48 | The actor is the type and the id joined by a colon; the marker unknown is recorded exactly when the principal's id is lost |
| Repositories.ActorIdentifiesIff | internal/repo/kacho/pg/region.go:39-48 | An actor names its principal and no other if and only if neither the type nor the id, but for its last character, contains a colon |
| Repositories.Postgres.BeginFunc | internal/repo/kacho/pg/region.go:115-128 | One transaction around a statement and its outbox row, while other sessions work between its steps: committed as a whole or not at all. It succeeds exactly when no fault strikes, no lock is in the way and the statement succeeds on the tables it sees; a failure is that of the first of these to strike |
| Repositories.BlockedByAConflict | internal/repo/kacho/pg/integration_test.go:232-296 | A lock is in the way only if some other transaction between its statement and its end is on the same row, deletes the region a zone is put into, put a zone into the region to be deleted, or deletes a zone of it |
| Domain.StatusRoundTrip | internal/repo/kacho/pg/zone.go:175-195 | 1 is written as UP, 2 as DOWN and anything else as STATUS_UNSPECIFIED, other texts are read as unspecified, and writing and reading back is the identity exactly on 0, 1 and 2 |
| Domain.PlanIsExact | internal/apps/kacho/api/zone/zone.go:126-211 | The statements that accepted requests run are exactly those whose ids are valid, whose names are short enough and never emptied, and whose status is UP or DOWN |
| Domain.Truncate | internal/protoconv/protoconv.go:51-54 | created_at is cut down to a whole second, by less than a second |
| Slugs.RegexIsScanner | internal/domain/geo.go:35 | The regular expression, read by the usual meaning of concatenation and iteration, accepts exactly what a left-to-right scanner accepts |
| Slugs.SlugLanguage | internal/domain/geo.go:29-35 | Regular expression, scanner, conditions on the characters (starts a-z; a-z, 0-9 and hyphen; no two adjacent hyphens; no final hyphen) and split into non-empty segments describe the same strings |
| Slugs.ValidIDIsSlug | internal/domain/geo.go:41-52 | ValidateID accepts exactly the slugs of 1 to 63 bytes |
| OperationStore.OpsRepo.Create | internal/repo/kacho/repomock/repomock.go:111-120 | The stored copy has the operation's principal or, if it has none, that of the calling context; nothing else changes |
| OperationStore.OpsRepo.CreateWithPrincipal | internal/repo/kacho/repomock/repomock.go:124-131 | Afterwards exactly the given principal is granted the operation, and what any principal is granted of other operations is unchanged |
| OperationStore.OpsRepo.Get | internal/repo/kacho/repomock/repomock.go:134-143 | Finds an operation exactly when some principal would be granted it, and then what its own principal is granted |
| OperationStore.OpsRepo.MarkDone | internal/repo/kacho/repomock/repomock.go:151-162 | Unguarded: sets done and the response even on a finished operation |
| OperationStore.OpsRepo.MarkError | internal/repo/kacho/repomock/repomock.go:165-176 | Unguarded: sets done and the error even on a finished operation |
| OperationStore.OpsRepo.Cancel | internal/repo/kacho/repomock/repomock.go:179-192 | Finishes an open operation with the cancelled status; refuses and changes nothing on a finished one |
| OperationStore.OpsRepo.GetOwned | internal/repo/kacho/repomock/repomock.go:205-214 | The operation if the caller owns it; otherwise not-found, whether it exists or not |
| OperationStore.OpsRepo.CancelOwned | internal/repo/kacho/repomock/repomock.go:219-239 | Finishes an own open operation; grants an own cancelled one unchanged; refuses the rest without a change |
| OperationStore.UnguardedMarksOverwrite | internal/repo/kacho/repomock/repomock.go:151-176 | MarkDone and MarkError keep terminal state if and only if the operation is still open: on a finished one some call overwrites it |
| OperationStore.CancelThenMarkDoneMixes | internal/repo/kacho/repomock/repomock.go:151-192 | In the in-memory store a cancel followed by a worker's MarkDone leaves both an error and a response |
| OperationStore.OperationHandler.Get | internal/handler/operation_handler.go:50-65 | An empty id is invalid and a store without owner scoping an internal error; otherwise the stored operation is granted, finished or not, exactly when the caller's principal is its own, and not found in every other case |
| OperationStore.OperationHandler.Cancel | internal/handler/operation_handler.go:70-90 | As Get; an own open operation is granted and finished with code 1, an own one finished with code 1 is granted unchanged, an own one finished otherwise fails its precondition, and nothing else changes |
| OperationStore.OwnerScoped | internal/handler/operation_handler.go:48-90 | For any sequence of Get and Cancel calls by one principal, the answers are the same over any two stores that agree on that principal's operations, and no one else's operation changes |
| OperationStore.CancelFinished | internal/repo/kacho/repomock/repomock.go:226-233 | Cancelling a finished own operation is granted exactly when its stored code is 1, and never changes it |
| OperationStore.CancelTwice | internal/handler/operation_handler.go:67-69 | Repeating a cancel changes nothing and gets the same answer |
| Resolver.ReadingDecides | internal/operationresolver/resolver.go:94-174 | For any readers and each of the six kinds of metadata: skipped exactly when the reader of its resource is unset, left for the next sweep exactly when that reader fails, and otherwise done or interrupted by whether it finds the resource; other metadata, or none, is skipped |
| Resolver.ProjectedFields | internal/protoconv/protoconv.go:31-54 | Which stored column becomes which field of the wire resource, with created_at cut to a whole second |
| Lro.ReachedInv | internal/apps/kacho/api/zone/zone.go:126-229 | In every state that requests, workers, cancels, crashes and sweeps can reach, each operation has its planned statement and its owner's actor, an operation finished by its worker or owner holds what that author writes, and a swept one has no mixture of error and response (what a swept one holds is stated by Recovery.StoredOutcomeIsRightIff) |
| LroTheorems.FirstTerminalWriteWins | internal/repo/kacho/pg/operation_owner_integration_test.go:123-178 | Once done, an operation never changes again whatever worker, owner, crash or sweep comes later; its owner and metadata never change |
| LroTheorems.TerminalShape | internal/repo/kacho/pg/operation_owner_integration_test.go:123-178 | At most one of error and response is ever set, none while open, and exactly one when the worker or the owner finished the operation |
| LroTheorems.SubmitEffect | internal/apps/kacho/api/zone/zone.go:126-155 | A request that fails validation leaves no trace; a valid one leaves one open operation of its caller and no row, with a worker waiting exactly when the write of the operation row was acknowledged |
| LroTheorems.RowsBelongToOperations | internal/apps/kacho/api/region/region.go:133-139 | Every committed outbox row belongs to exactly one accepted operation, and is what the requested statement does, for the requesting principal, to the tables at the row's place in the log |
| LroTheorems.WorkerReportsTruth | internal/apps/kacho/api/zone/zone.go:147-153 | A response the worker wrote means its row is committed and logged; an error it wrote means there is no row, except exactly when a commit lost its acknowledgement, and then the code is INTERNAL |
| LroTheorems.ReportStores | internal/apps/kacho/api/zone/zone.go:147-153 | A worker that finds its operation open stores the projection of the row it wrote, the empty response for a delete, or the code of its failure (5, 6, 9, 1, 4 or 13), 13 also after a lost acknowledgement |
| LroTheorems.CatalogueIsValid | internal/apps/kacho/api/region/region.go:119-158 | Every catalogue the service can reach holds only rows whose ids and region ids are slugs of at most 63 bytes, whose names have at most 253 runes and whose status is UP or DOWN |
| Recovery.VerdictIsRightIff | internal/operationresolver/resolver.go:132-174 | For an accepted operation whose resource nobody else writes: in every run that orphans it, be its worker dead or its terminal write given up, the reconciler finds Done exactly when the write committed, if and only if a create or an update was accepted while its id was absent, or a delete while it was present |
| Recovery.StoredOutcomeIsRightIff | cmd/kacho-geo/recovery.go:48-76 | If the sweep looks only at operations whose worker is gone (dead, or done with its terminal write) with no commit under way, and nobody else writes the resource until it has settled, then in every such run the stored outcome is a success exactly when the write committed, under the same if-and-only-if condition |
| Recovery.LookIsSafeIff | cmd/kacho-geo/recovery.go:48-76 | At any state of such a run where the worker is gone: every continuation from a look that ends swept stores the truth, presence at acceptance being telling, if and only if the worker had drawn no sequence number |
| Recovery.EarlyLookGoesWrong | internal/operationresolver/resolver.go:132-174 | A look while the write is under way, by a dead worker with a drawn number or a live one that holds its row, has a continuation that stores the wrong outcome, whatever was requested |
| Recovery.StoredOutcomeStaysRight | cmd/kacho-geo/recovery.go:48-76 | A stored outcome that was right stays right in every continuation, whoever writes the resource later |
| Recovery.DeadIsSettled | cmd/kacho-geo/recovery.go:48-76 | Once the worker is dead, or done with its terminal write, and has no commit under way, whether the operation's write committed never changes |
| Recovery.DeadMayCommitIffDrew | internal/handler/operation_handler.go:67-90 | Of a dead worker that has not committed, cancelled or not, some continuation commits its write if and only if it had drawn its sequence number |
| Recovery.LiveMayCommit | internal/handler/operation_handler.go:67-90 | A live worker that executed its statement can still commit it, whatever became of its operation |
| LroTheorems.RecoveryAgreesWithWorker | cmd/kacho-geo/recovery.go:78-103 | If a create or update committed and its row was not written since, the reconciler's response is the one the worker stores, field by field |
| LroTheorems.ProjectionFaithful | internal/protoconv/protoconv.go:31-54 | Two valid rows of a resource look alike on the wire exactly when they agree on all columns recorded in the outbox and on the whole seconds of created_at |
| Sweeps.SweepOne | internal/operationresolver/resolver.go:94-130 | Every open operation can be looked at and settled; that finishes exactly it and leaves the catalogue alone |
| Sweeps.FailedLook | internal/operationresolver/resolver.go:145-157 | A look whose read fails changes nothing, so the operation stays open for the next sweep |
| Sweeps.SweepStores | internal/operationresolver/resolver.go:159-174 | A look and a settlement store: for a create or an update the projected row if there is one and the interruption if not; for a delete an empty response if there is no row and the interruption if there is one |
| Sweeps.SweepFinishes | cmd/kacho-geo/recovery.go:48-76 | A sweep over any distinct open operations runs to its end and closes exactly those whose reads are answered; one whose read fails is left as it is |
| Witnesses.CancelledMayCommit | internal/handler/operation_handler.go:67-90 | A reachable state in which an operation is cancelled and its row is committed all the same |
| Witnesses.LostAcknowledgement | internal/apps/kacho/api/zone/zone.go:147-153 | A reachable state in which the worker stored an error and its row is committed, the acknowledgement having been lost |
| Witnesses.LateCommitAfterVerdict | internal/operationresolver/resolver.go:132-174 | A reachable state in which the sweep looked while a commit was under way: a create of an id nobody else touched is stored as interrupted, and its row is there |
| Witnesses.LostUpdateReportedDone | docs/architecture/known-divergences.md:173-191 | A reachable state in which an update that never ran is done with the old row as response |
| UseCases.Intake.Launch | internal/apps/kacho/api/region/region.go:124-140 | Writes the operation row first and starts the worker only if that was acknowledged; an unacknowledged write leaves the row without a worker |
| UseCases.RegionUseCase.Create | internal/apps/kacho/api/region/region.go:119-141 | Refused as invalid exactly when the id is no valid id or the name has more than 253 runes; otherwise one new open operation with create metadata and, once it is acknowledged, one worker that inserts that id and name |
| UseCases.RegionUseCase.Update | internal/apps/kacho/api/region/region.go:148-176 | The same for updates; the worker patches the name exactly when it is not empty |
| UseCases.RegionUseCase.Delete | internal/apps/kacho/api/region/region.go:184-203 | The same for deletes: refused exactly when the id is no valid id |
| UseCases.ZoneUseCase.Create | internal/apps/kacho/api/zone/zone.go:126-155 | The same for zones: both ids valid, at most 253 runes and status 0, 1 or 2; the worker inserts the given fields, with status 1 for an omitted one |
| UseCases.ZoneUseCase.Update | internal/apps/kacho/api/zone/zone.go:163-203 | The same for zones; the worker patches exactly the non-empty fields and a status other than 0 |
| UseCases.ZoneUseCase.Delete | internal/apps/kacho/api/zone/zone.go:209-229 | The same for zone deletes, with the zone's statement and metadata |
| UseCases.AcceptanceIsSubmit | internal/apps/kacho/api/zone/zone.go:138-154 | A use case call whose operation row was written is the Submit action of the protocol, acknowledged or not; a refused one is no action |
| Base64.DecodeEncode | internal/repo/kacho/pg/pagetoken.go:24-32 | Standard base64 with padding (section 4 of RFC 4648): decoding undoes encoding on every byte string |
| Base64.DecodesExactly | internal/repo/kacho/pg/pagetoken.go:28-32 | A text decodes to bytes if and only if, without its line ends, it is whole groups of four symbols of the standard table, with up to two padding characters at the very end, whose bits spell those bytes |
| Base64.EncodesBySection10 | internal/repo/kacho/pg/pagetoken.go:22-25 | The encoder's output for the examples of section 10 of RFC 4648, and group by group for longer texts |
| Json.ReadEscaped | internal/repo/kacho/pg/pagetoken.go:23-34 | Reading the JSON string (section 7 of RFC 8259) written for any byte string gives it back with its malformed bytes replaced by U+FFFD |
| JsonLanguage.ParsesExactlyTheGrammar | internal/repo/kacho/pg/pagetoken.go:33-36 | The reader accepts a text as a value if and only if a syntax tree of RFC 8259 prints as the text and means the value, for all texts |
| JsonGrammar.HexSpells | internal/repo/kacho/pg/pagetoken.go:33-36 | Four hexadecimal digits of either case are read as the number they spell |
| JsonGrammar.OnlyHexIsRead | internal/repo/kacho/pg/pagetoken.go:33-36 | Nothing but four hexadecimal digits is read as one |
| Utf8.RuneLenIsExact | internal/repo/kacho/pg/pagetoken.go:21-36 | A sequence at the front of a string counts as well formed exactly when it is the encoding of a Unicode scalar value (RFC 3629) |
| Utf8.EncodeRuneIsTheEncoding | internal/repo/kacho/pg/pagetoken.go:33-36 | What an escape is replaced by is the one UTF-8 encoding of its scalar value |
| Utf8.CoerceKeepsEncodings | internal/repo/kacho/pg/pagetoken.go:21-36 | From left to right, an encoding is kept and a byte that starts none becomes U+FFFD |
| Utf8.EscapeIsHtmlSafe | internal/repo/kacho/pg/pagetoken.go:22-25 | The JSON string of any id has no control character and none of <, > and & |
| PageToken.TokenRoundTrip | internal/repo/kacho/pg/pagetoken.go:21-41 | A token is never empty; decoding gives the id back if and only if the id is non-empty well-formed UTF-8, and says what comes back otherwise |
| PageToken.MalformedIdIsReplaced | internal/repo/kacho/pg/pagetoken.go:21-41 | For instance every lone byte from 80 to FF comes back from its token as U+FFFD |
| PageToken.SlugTokens | internal/repo/kacho/pg/pagetoken.go:21-41 | Every token made from a validated id is accepted and means that id |
| TokenLanguage.AcceptedTokens | internal/repo/kacho/pg/pagetoken.go:27-41 | A token is accepted as naming an id if and only if it is base64 of a JSON object in which all members called id, in any case, are strings or null, and the last string among them is that id and not empty |
| TokenLanguage.ForeignTokens | internal/repo/kacho/pg/pagetoken.go:27-32 | A token with a foreign character, or whose length without line ends is no multiple of four, is refused |
| TokenLanguage.NotAnObject | internal/repo/kacho/pg/pagetoken.go:33-36 | A token whose bytes are not the text of a JSON object is refused |
| TokenLanguage.RefusedTokens | internal/repo/kacho/pg/integration_test.go:469-496 | The three tokens of the repository's test are refused: not base64, not JSON, and no id |
| Paging.List | internal/repo/kacho/pg/zone.go:45-84 | One call refuses a non-empty token exactly when it names no id, in the sense of TokenLanguage.AcceptedTokens; otherwise it returns the first page after the named id (from the start for an empty token), with a token for the last id exactly when more rows follow; and it returns an error and no rows exactly when the query, a row it reads or the end of the result set fails |
| Paging.PageFacts | internal/repo/kacho/pg/region.go:83-106 | A page is sorted, lies above the cursor, has at most the asked number of rows, skips nothing below its token, is full when it has a token, and without one leaves nothing out |
| Paging.ScanUnderChange | internal/repo/kacho/pg/region.go:71-108 | With any committed changes between calls and any page sizes of at least 1, even of the cursor row: no token is refused, ids ascend strictly across pages, and an ended scan has every id that each call found |
| Paging.PagesAreTheTable | internal/repo/kacho/pg/zone.go:57-82 | On a table of n rows following the tokens ends after exactly max(1, ceil(n/p)) pages, which together are the sorted table, and only the last has no token |
| Paging.SlugTablesAreTokenSafe | internal/domain/geo.go:41-52 | Tables whose ids passed ValidateID never give a token the next call refuses |
| Listing.CatalogueScan | internal/repo/kacho/pg/region.go:71-108 | The scan theorem for the running service: call k meets the committed tables of any reached state, and each page shows rows committed when it was asked for |
| Shutdown.StepKeepsInv | cmd/kacho-geo/serve.go:253-293 | Every step of the three goroutines keeps the invariant that ties their program counters, the context, the channels and what each Serve returned |
| Shutdown.NoDeadlock | cmd/kacho-geo/serve.go:253-293 | Once the context is cancelled or a Serve has returned, and until main returns, some goroutine can step without a signal or a failure |
| Shutdown.EveryInterleavingEnds | cmd/kacho-geo/serve.go:253-293 | From such a state no interleaving has more steps than the measure, at most 17, and one that cannot go on by itself has main returned |
| Shutdown.ExitResult | cmd/kacho-geo/serve.go:295-329 | Main returns only after the context was cancelled, diagnostics, the internal and the public server were stopped in this order and waited for, and the workers drained; a failed internal listener always shows, and a public error comes first |
| Shutdown.CleanExitIff | cmd/kacho-geo/serve.go:282-305 | The process ends with nil if and only if no listener failed and the public Serve was entered before the stop of its server began; entered later, it ends with the stopped-server error |
| Shutdown.InternalCrashIsReported | cmd/kacho-geo/serve.go:276-292 | A reachable exit with the internal error although the public Serve returned nil |
| Shutdown.StoppedServerErrorIsReported | cmd/kacho-geo/serve.go:287-304 | A reachable exit with the stopped-server error although no listener failed: the servers are stopped before main calls the public Serve |

## Left out

- Error texts, SQLSTATE tables and the status mapper, beyond the outcome each error has for an operation.
- Timestamps and descriptions of operations; a store that is down while the handler asks it.
- The rounding of created_at to microseconds by the database; a time is what the row keeps.
- The transport, TLS, interceptors, permission checks, metrics, diagnostics, logging, migrator and configuration checks:
  wiring or flat case analysis.
- The SQL of the production operation store, the reconciler's batching and timing, the worker runner, outbox delivery and
  the normalisation of page sizes: their code is not part of this repository.
- Deadlock detection and statement timeouts: any open transaction may fail transiently at any time.
- A statement's snapshot and its re-check after a wait are one step, on the tables as they are when it no longer waits.
- The regions and zones tables are one table keyed by kind and id.
- TokenLanguage.AcceptedTokens: a JSON text nested more than 10000 deep, which the Go library refuses, is accepted; the limit belongs to that library.
- Go strings of names are sequences of runes, those of ids and tokens are byte strings.
- Grace periods and the drain timeout at shutdown: the drain is one step that always ends.
- Repositories.Postgres.Others: stands for other sessions through its contract alone; nothing is known of what they did but that it was a run without the caller's transaction.
- The sweep's grace period and the one-process deployment are not modelled; a sweep may meet live workers.
- The public read calls by id: one lookup and the projection that the recovery theorems already cover.
