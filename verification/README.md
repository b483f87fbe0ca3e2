# Brokered SSH sessions and their audit chain, verified

This project models the privileged-access broker and proves its central promises with Dafny 4.11.
`dafny verify dfyconfig.toml` checks everything.

## What is modelled

* **The audit chain** (`Utf8`, `Json`, `Integrity`, `AuditChain`, `AuditRepository`). An event is printed
  as compact JSON, encoded in UTF-8, followed by the previous row's MAC, and authenticated with
  HMAC-SHA256, which is *any* function from a key and a message to 32 bytes: every statement is about all
  such functions, so tamper evidence reads "a prefix of the log, or here is a forged MAC" and the head
  theorem reads "the same history, or here is a collision". Tables hold arbitrary SQLite values, so a
  tampered table is a value too. Appending is both an object with a transaction and a system of any number
  of writers whose begin, read-head, insert, commit and rollback steps interleave freely.
* **The access run** (`Effects`, `SshStack`, `TerminalRelay`, `Broker`, `Authorization`, `AccessService`,
  `TraceSafety`, `RunFacts`). One run of `handle` over the Paramiko broker, imperative like the original:
  session object, connection, channel and brokered session are classes whose closes are idempotent. Each call
  that leaves the program is answered by an arbitrary script (a value or an exception) and recorded in a trace.
  A ledger summarises the trace while the run goes on; `TraceSafety` and `RunFacts` prove what the ledger means
  in terms of the calls alone, and `AccessService.Handle` ends in those terms: its one promise, `Promised`,
  speaks of the request, the stored rows, the calls made, the return value and the session object. It is
  exact in both directions: which calls may come when, and which end the calls that came force.
* **Many runs on one log** (`Lifecycle`). Runs of `handle`, each as far as it has come, are the writers of the
  concurrent table. The rows of each session spell a prefix of ALLOWED OPENING (FAILED | ACTIVE (CLOSED |
  FAILED)), whatever the interleaving. What a run may have appended is derived from what `Handle` promises;
  assumed is that the id source never gives two runs the same session id.
* **Components** (`Sessions`, `Access`, `PolicyStore`, `Config`, `Base64`, `Fingerprint`, `KeyFile`). The session
  state machine, the deny-overrides reduction over stored tables, the exactly-one-account rule, canonical
  host-key fingerprints, and the short-read key loop.

What leaves the program or is stored is also stated outright, as bytes, JSON text, table cells and literal words,
so that no pair of functions that merely undo each other decides it: `EncodeCharLayout`, `EscapeCharStandsFor`,
`CanonicalText`, `VerifiesInCells`, `NextRowInCells`, `DecisionInCells`, `FoundIffFirstRow`, `FoundIffSoleRow`,
`ChecksInCells`, `BlockSpellsItsBytes`, `EndInWords` and `InterleavedLifecycles`.

Text is a sequence of Unicode scalar values; instants and monotonic readings are integers; `out` parameters
named `raised` or a null result stand for exceptions. The policy, target and account tables of a run are the
contents its queries see.

`AccessService.Handle` observes a run for `horizon` turns of the relay, because the original loops for ever
when its clock stands still: a result at every horizon is a result about every finite part of every run.

Two findings about the code. `account_target_mismatch` cannot be the reason of a refusal over the SQLite account
repository, which selects by target id (`TargetMismatchNeverHappens`). `_parse_openssh_sha256_fingerprint`
relies on re-encoding rather than on the decoder for canonicity: the decoder drops stray low bits
(`ReencodeClearsStrayBits`).

## Model

| member | source | states |
|---|---|---|
| Utf8.DecodeIffEncode | src/infrastructure/audit/integrity.py:31-35 | strict UTF-8 decoding is the exact inverse of encoding: bytes decode to a text if and only if they are its encoding |
| Utf8.EncodeCharLayout | src/infrastructure/audit/integrity.py:31-35 | each code point takes the bytes of section 3 of RFC 3629: the length by its range, the lead byte's mark, six bits in each byte after it |
| Json.DocumentRoundTrip | src/infrastructure/audit/integrity.py:20-35 | the parser undoes the compact JSON printer on every list of fields, escapes, control characters, negative numbers and null included |
| Json.EscapeCharStandsFor | src/infrastructure/audit/integrity.py:31-35 | each printed character stands for the original under section 7 of RFC 8259, raw exactly when nothing forbids it, and long only where there is no short escape |
| Json.DigitsAreDecimal | src/infrastructure/audit/integrity.py:20-35 | numbers are printed as decimal digits of their value without leading zeros |
| Integrity.MessageRoundTrip | src/infrastructure/audit/integrity.py:8-47 | the authenticated bytes decode to the sequence number, all eight fields (null apart from text) and the previous MAC |
| Integrity.MessageInjective | src/infrastructure/audit/integrity.py:38-47 | two messages are equal if and only if number, record and previous MAC are |
| Integrity.CanonicalNamesEachValue | src/infrastructure/audit/integrity.py:20-35 | decoded and parsed, the canonical bytes are nine fields with the nine literal names in the source's order, each holding the value of that name |
| Integrity.CanonicalText | src/infrastructure/audit/integrity.py:20-35 | where nothing needs an escape, the canonical text is literally the compact array of named values, null for an absent session or reason |
| AuditChain.VerifyRows | src/infrastructure/audit/sqlite_audit_repository.py:167-245 | the loop accepts exactly the tables whose every row is well typed, numbered by its position, chained to the row before and carries the right MAC |
| AuditChain.VerifiesInCells | src/infrastructure/audit/sqlite_audit_repository.py:167-245 | in cells: a table verifies if and only if rows are numbered 1, 2, 3, each repeats the MAC of the row before (32 zero bytes at first) and carries the MAC of its own columns under their names followed by those 32 bytes |
| AuditChain.AppendNeitherBreaksNorLaunders | src/infrastructure/audit/sqlite_audit_repository.py:72-113 | for arbitrary prior contents, after an append the table verifies if and only if it did before, though only the head is read |
| AuditChain.VerifiedTableExtends | src/infrastructure/audit/sqlite_audit_repository.py:248-261 | a verifying table always accepts a next row, numbered one past its length and storing the given record |
| AuditChain.NextRowInCells | src/infrastructure/audit/sqlite_audit_repository.py:80-112 | in cells: an append to any table is possible if and only if the last row has a positive integer number and a 32-byte MAC, and then adds the next link holding the record column by column |
| AuditChain.AppendKeepsOrder | src/infrastructure/audit/sqlite_audit_repository.py:72-80 | the new row sorts strictly after every stored one in SQLite's order, so the head query of the next append finds it |
| AuditChain.ExtendVerifies | src/infrastructure/audit/sqlite_audit_repository.py:64-113 | every sequence of appends to a verifying table succeeds, verifies, keeps what was there and stores the records in order |
| AuditChain.TamperEvidence | src/infrastructure/audit/sqlite_audit_repository.py:43-50 | against any verifying log, a table verifies without holding a row forged with respect to it if and only if it is a prefix of the log |
| AuditChain.CommittedLogIsTamperEvident | src/infrastructure/audit/sqlite_audit_repository.py:80-112 | the same for the log that committed appends make from an empty table |
| AuditChain.HeadCommitsToHistory | src/infrastructure/audit/sqlite_audit_repository.py:167-218 | two verifying tables with the same last MAC are equal row by row or exhibit two messages with one MAC |
| AuditRepository.SQLiteAuditRepository.Append | src/infrastructure/audit/sqlite_audit_repository.py:64-130 | commits exactly when key, head and id are good and SQLite raises nothing; then the table grows by the chained row, otherwise it is unchanged |
| AuditRepository.StepKeepsInvariant | src/infrastructure/audit/sqlite_audit_repository.py:69-116 | every step of every writer keeps lock ownership, the read head, the table as the chain of commits, distinct ids and agreeing histories |
| AuditRepository.ConcurrentAppendsLinearise | src/infrastructure/audit/sqlite_audit_repository.py:64-130 | any interleaving of any number of writers: the table verifies, is numbered 1..n, ids are distinct, and each writer's rows are its successful attempts in its order |
| AuditRepository.ConcurrentAppendsNeverLaunder | src/infrastructure/audit/sqlite_audit_repository.py:71-113 | from any initial table, no interleaving changes whether the table verifies |
| AuditRepository.UninterruptedStepsAreAppend | src/infrastructure/audit/sqlite_audit_repository.py:71-116 | four uninterrupted steps have the outcome of one append and give the lock back |
| Sessions.Session.Create | src/domain/session.py:25-57 | construction succeeds exactly when the checks pass and stores the given fields |
| Sessions.AdmissibleByStatus | src/domain/session.py:25-57 | the constructor's checks status by status: five nonblank texts and an aware start; a live session has neither end nor reason, an ended one has both and does not end before its start |
| Sessions.BlankMeansOnlySpaces | src/domain/session.py:34-36 | a text counts as empty exactly when it holds nothing but the code points that `strip` removes |
| Sessions.Session.MarkActive | src/domain/session.py:59-62 | accepted only from OPENING; a rejected call changes nothing |
| Sessions.Session.MarkFailed | src/domain/session.py:64-70 | accepted only before a terminal state with a valid end and reason; a rejected call changes nothing |
| Sessions.Session.MarkClosed | src/domain/session.py:72-78 | accepted only from ACTIVE with a valid end and reason; a rejected call changes nothing |
| Sessions.HistoryKeepsInvariant | src/domain/session.py:25-101 | after any call history the fields still pass the constructor's checks, identity is untouched and at most two calls were accepted |
| Sessions.TerminalAbsorbs | src/domain/session.py:64-78 | a terminal session rejects every further call unchanged |
| Sessions.AcceptedLanguage | src/domain/session.py:59-78 | the accepted calls of a new session spell one of five words, and replaying those alone gives the same fields |
| PolicyStore.AllowIffEveryMatchAllows | src/infrastructure/policy/sqlite_policy_repository.py:71-144 | over any table, malformed rows included, access is allowed if and only if a row has this user, target and action, and every such row has nonblank texts and the effect word `allow` |
| PolicyStore.NonAllowRowVetoes | src/application/policy_evaluator.py:20-41 | adding a row for the request that is malformed or does not say `allow` never leaves access allowed |
| PolicyStore.DecisionInCells | src/application/policy_evaluator.py:13-60 | over any table, in cells: it raises if and only if a row for the request is malformed; otherwise a `deny` wins with the least such id, then `requires_approval`, then `allow` with the least id, and no row denies |
| PolicyStore.RowsSpellPolicies | src/infrastructure/policy/sqlite_policy_repository.py:96-144 | a policy is stored as, and read from, exactly the row whose cells are its nonblank texts, the action word and the word of its effect |
| PolicyStore.SQLitePolicyRepository.Store | src/infrastructure/policy/sqlite_policy_repository.py:42-69 | stores exactly well-formed policies with a new id, as the row that spells them, and otherwise leaves the table as it was |
| PolicyStore.StoredDecisionsRefineSetRule | src/application/policy_evaluator.py:13-60 | after any sequence of stores the decision is the deny-overrides rule over the set of accepted matching policies, with the least id as the reason |
| PolicyStore.InsertionOrderIsImmaterial | src/infrastructure/policy/sqlite_policy_repository.py:82-90 | the same accepted matching policies give the same decision and reason whatever the insertion order |
| PolicyStore.OrderByIdOrders | src/infrastructure/policy/sqlite_policy_repository.py:87-87 | the selected rows come in the order of their ids |
| SqlValues.TextLessMeans | src/infrastructure/policy/sqlite_policy_repository.py:87-87 | texts are ordered by the first code point in which they differ, a prefix before what it begins |
| Config.TargetIsFirstRow | src/infrastructure/config/sqlite_target_repository.py:65-87 | the lookup answers by the first row with the id: nothing without one, otherwise its decoding or an exception |
| Config.FoundTargetIsStored | src/infrastructure/config/sqlite_target_repository.py:65-87 | a found target has the requested id and is the decoding of a stored row |
| Config.FoundIffFirstRow | src/infrastructure/config/sqlite_target_repository.py:65-87 | a target is found if and only if the first row with its id spells it cell by cell, flag included |
| Config.TargetRowsSpellTargets | src/infrastructure/config/sqlite_target_repository.py:119-147 | a row is read as a target if and only if its cells are the target's nonblank texts, a port in 1..65535, a pin that starts with SHA256: and 1 or 0 for the flag |
| Config.FoundIffSoleRow | src/infrastructure/config/sqlite_privileged_account_repository.py:72-103 | an account is found if and only if exactly one row is for the target and it spells that account cell by cell; nothing is found only when no row is |
| Config.AccountRowsSpellAccounts | src/infrastructure/config/sqlite_privileged_account_repository.py:105-157 | an account is stored as, and read from, exactly the row whose cells are its nonblank texts in column order and 1 or 0 for the flag |
| Config.SecondAccountIsAmbiguous | src/infrastructure/config/sqlite_privileged_account_repository.py:26-31 | storing a second account for a target makes the lookup raise |
| Config.SQLitePrivilegedAccountRepository.Store | src/infrastructure/config/sqlite_privileged_account_repository.py:39-70 | stores exactly well-formed accounts with a new id, as the row that spells them, and otherwise leaves the table as it was |
| Base64.EncodedShape | src/infrastructure/ssh/host_key.py:14-15 | the encoding of a byte string such as a digest is digits ending in two zero bits and one pad, and decodes back |
| Base64.ReencodeClearsStrayBits | src/tools/provision_lab.py:317-318 | decoding digits and re-encoding clears the stray low bits of the last digit and changes nothing else |
| Base64.BlockSpellsItsBytes | src/infrastructure/ssh/host_key.py:14-15 | four characters of the RFC 4648 alphabet spell in base 64 the number that their three bytes spell in base 256 |
| Fingerprint.ParseAcceptsCanonicalShape | src/tools/provision_lab.py:311-328 | the parser accepts exactly the prefix followed by 43 digits whose trailing bits are zero |
| Fingerprint.ParseAcceptsFingerprints | src/tools/provision_lab.py:311-328 | the parser accepts exactly the fingerprints of 32-byte digests, so every computed one |
| Fingerprint.OfIsInjective | src/infrastructure/ssh/host_key.py:11-16 | two fingerprints are equal if and only if their digests are |
| Fingerprint.OfIsPrefixAndDigits | src/infrastructure/ssh/host_key.py:11-16 | a fingerprint is `SHA256:` and the base-64 text of the digest without its pad |
| Fingerprint.PinDecidesDigest | src/infrastructure/ssh/host_key.py:19-30 | with an accepted pin the comparison decides equality of digests |
| KeyFile.ReadKey | src/infrastructure/security/file_key_provider.py:64-74 | for every schedule of partial reads, the first 33 bytes or the whole file |
| KeyFile.GetKey | src/infrastructure/security/file_key_provider.py:36-62 | yields the whole content of a 32-byte file and an error for every other length |
| SshStack.VerifiedSshConnection.Close | src/infrastructure/ssh/paramiko_connection.py:46-53 | transport and then socket each get one close attempt even when the first raises; a second call makes no call at all |
| SshStack.InteractiveSshChannel.Close | src/infrastructure/ssh/interactive_channel.py:56-60 | the raw channel gets one close attempt; a second call makes no call at all |
| SshStack.CloseResources | src/infrastructure/ssh/paramiko_connection.py:161-175 | whatever raises, nothing that was obtained stays open |
| SshStack.Authenticate | src/infrastructure/ssh/paramiko_connection.py:135-159 | succeeds exactly when the credential decodes, nothing raises and the server agrees; sends nothing unless the credential decodes, and only this account's name with that text |
| SshStack.Connect | src/infrastructure/ssh/paramiko_connection.py:79-133 | dials the given target; fails exactly when a step raised, the key did not match the pin, the server refused or the credential does not decode, and then leaves nothing open; success leaves exactly the owned socket and authenticated transport open |
| SshStack.OpenInteractive | src/infrastructure/ssh/interactive_channel.py:14-41 | fails exactly when one of the three requests raised, leaving the connection alone open; success adds exactly the channel, with its shell started |
| TerminalRelay.WriteOutput | src/infrastructure/terminal/local_terminal_io.py:25-33 | for every schedule of partial writes a prefix of the data goes out, the whole of it exactly when the call returns, and it gives up exactly after a write that raised or took nothing |
| TerminalRelay.RelayTerminal | src/infrastructure/ssh/terminal_relay.py:11-57 | the result is the one its calls force: it raises exactly when a call or closing the channel raised or a write took nothing, else MAX_DURATION_EXCEEDED exactly after a late reading, else COMPLETED exactly after an empty answer or a closed channel; it asks for no other number of bytes than it was told; both directions are balanced unless a call failed; a ticking clock ends the loop within the duration; the channel is closed once |
| TerminalRelay.AwaitReadiness | src/infrastructure/ssh/terminal_relay.py:24-40 | readiness is acted on only after a reading that follows the wait and is before the fixed deadline; each of the three ways it ends is told by the calls |
| Broker.OpenSession | src/infrastructure/ssh/paramiko_session_broker.py:63-83 | fails exactly when connecting or one of the channel's requests did, and then leaves nothing open; success holds exactly socket, transport and channel |
| Broker.ParamikoBrokeredSession.Close | src/infrastructure/ssh/paramiko_session_broker.py:44-51 | leaves nothing open, the channel closed first; after the relay closed the channel, it raises exactly when closing transport or socket raised |
| Authorization.Authorize | src/application/access_service.py:70-103 | its result is the one that the tables and the answers force: an exception exactly when a lookup raised or met rows it rejects, otherwise the first check that fails, otherwise the vault's answer for the account's reference; nothing is looked up before the check that precedes it |
| Authorization.AskIffAuthorized | src/application/access_service.py:70-103 | the checks let a request through to a target and an account if and only if the cells authorize it: own request, every matching row says `allow`, the first target row and the sole account row spell them and hold 1 as their flag |
| Authorization.ChecksInCells | src/application/access_service.py:70-99 | every outcome of the checks in terms of the cells of the three tables: which refusal, when a lookup raises, and which target and account a granted request gets |
| Authorization.TargetMismatchNeverHappens | src/application/access_service.py:98-99 | over the SQLite account repository this refusal is unreachable |
| AccessService.MarkFailed | src/application/access_service.py:205-227 | for every clock reading the session ends FAILED with an end not before its start; the transition is never refused |
| AccessService.FailSession | src/application/access_service.py:205-223 | session and event carry the same kind, timestamp and reason |
| AccessService.RunBrokered | src/application/access_service.py:145-203 | activate, relay and close: what is logged, that nothing stays open, and that status and reason of the session are those that lost events, relay calls and close attempts determine |
| AccessService.Handle | src/application/access_service.py:62-203 | the whole run, over its calls alone: they come in order, each authorized by the stored rows; every resource is closed exactly once; it returns, raises or still relays exactly when the calls and rows say so; the session has the first id taken, starts at the clock's first reading and ends at its last; each read asks for 32768 bytes; and session, log and return value are the ones the calls determine |
| AccessService.PasswordNeedsEverything | src/application/access_service.py:70-139 | in any run of `handle`, a password goes out only for the target and account that the stored rows authorize: that account's name, the text of the vault's answer for its reference, after that target's pinned key was shown on the same transport and both opening events were logged, and once at most |
| AccessService.ClosedExactlyWhenNothingFailed | src/application/access_service.py:141-203 | a returned run's session is CLOSED if and only if connecting succeeded, no relay call failed and no close attempt raised, with all bytes passed on; otherwise FAILED for the first of these that went wrong |
| AccessService.EndInWords | src/application/access_service.py:129-203 | the literal reason of every ended session, by precedence: audit_persistence_failed, broker_open_failed, relay_failed, broker_close_failed, max_duration_exceeded, and relay_completed only after an end of file or a closed channel |
| TraceSafety.SafeAndEmptyReleasesOnce | src/application/access_service.py:135-177 | each socket, transport and raw channel obtained has exactly one close attempt in the trace, and nothing else has any |
| TraceSafety.PasswordSafe | src/infrastructure/ssh/paramiko_connection.py:98-159 | a password is sent once at most, is the text of an earlier answer of the vault, and comes after ACCESS_ALLOWED, SESSION_OPENING and a key match against the dialled target's pin on that same transport |
| TraceSafety.EventSafe | src/application/access_service.py:205-282 | every appended event has an id taken for it and a time read for it; the end of a session is the later of its start and the last reading |
| TraceSafety.ShellSafe | src/infrastructure/ssh/interactive_channel.py:22-41 | PTY and shell are requested only on a channel opened on an authenticated transport, the shell after the PTY |
| TraceSafety.RelaySafe | src/infrastructure/ssh/terminal_relay.py:22-52 | data moves only in a logged active session that nothing has stopped, after an in-time reading following the last wait; an end is read exactly when that wait found it readable, the channel first, before the next wait; a wait never outlasts the deadline |
| TraceSafety.SafeConserves | src/infrastructure/ssh/terminal_relay.py:44-52 | at every position of the trace, what was written is a prefix of what was received, what was sent a prefix of what was read, and one of the two is complete |
| TraceSafety.SafeMeansInOrder | src/application/access_service.py:70-167 | a safe ledger puts every call of the trace in order, from vault to close, and conserves bytes at every position |
| TraceSafety.TickingIsSteady | src/infrastructure/ssh/terminal_relay.py:22-40 | a clock that moves by a tick across every wait keeps the ledger's readings steady, so that the relay must end within its duration |
| RunFacts.LedgerTellsTheTrace | src/application/access_service.py:62-203 | each fact the outcome depends on (lookups, lost events, refused connection, how the relay stopped, failed closes) holds in the ledger if and only if a call of the trace shows it |
| Lifecycle.GrantedRunIsWellBehaved | src/application/access_service.py:105-203 | from what `Handle` promises: the events of a run with a session are a complete life when it returned and a proper prefix of one when it raised, all with its principal and session id |
| Lifecycle.RefusedRunIsWellBehaved | src/application/access_service.py:239-253 | from what `Handle` promises: a refused run logs one ACCESS_DENIED without a session id when it returns, and nothing when it raises |
| Lifecycle.HandleRunIsWellBehaved | src/application/access_service.py:62-203 | every run of `handle`, at its end or at any earlier moment, has logged a life or part of one under its own principal and session id |
| Lifecycle.InterleavedLifecycles | src/application/access_service.py:114-203 | for any interleaving of any number of runs of `handle`, each at any moment, the rows of each session show its run's events column by column in order, and their literal types are a complete life when the run returned and a proper prefix of one when it raised |
| Lifecycle.ActorsAndDenials | src/application/access_service.py:255-282 | for any interleaving of runs of `handle`, every added row shows an event of its run and names its run's principal, and a refused run that returned added exactly one access_denied |

## Left out

- RelayTerminal: observed for `horizon` turns, because the loop of the original need not end; the result `StillRunning` stands for a relay that is still going.
- Handle: takes the same `horizon`; clock and id source never raise, as in the running system, and exceptions outside `Exception` (such as an interrupt from the keyboard) are not modelled.
- Append: an exception raised by closing the database after a successful commit is not modelled.
- Text that is not a sequence of Unicode scalar values: Python strings may hold lone surrogates, for which the encoder raises before anything is inserted.
- HMAC-SHA256, SHA-256, AES-GCM and Argon2: the first two are arbitrary functions with 32-byte results, the others do not occur.
- SQLite: tables are sequences of rows in query order, `BEGIN IMMEDIATE` is one lock, and sequence numbers are unbounded.
- Timestamps as text: the ISO rendering of an instant is an arbitrary function.
- Stored tables of policies, targets and accounts changing between the queries of one run: each query sees the contents passed for it.
- Authentication of users, vault storage, provisioning apart from the fingerprint parser, permission checks, schema versions, terminal mode and the command line: they would add only short branches over libraries.
- Paramiko's algorithm deny list and timeouts: constants without a property of their own.
