# AdoNetTemplate core, modelled in Dafny

AdoNetTemplate is a thin ADO.NET helper library. This project models its core:

- **TransactionManager**: the best-effort coordinator of two nested transactions. Outer is prepared first and committed last; Inner is prepared second and committed first. It supports independent commit and rollback of either side, a scope timeout, and rollback on Dispose.
- **ITransactionParticipant**: the participant contract the manager drives. It is implemented by the generic provider, `GenericDbProvider`/`GenericDataAccessProviderTP`. The provider opens a connection on demand, begins, commits and rolls back one transaction, and raises CommitObserver before committing.
- **Parameter wrappers**: `GenericParametersWrapper` and the Oracle and DB2 typed setters and getters built on it.
- **Helpers**: `OracleSQLBuilder`'s statement text, `RowMapperResultSetExtractor`, the `ConnectionUtils` helpers, and the JSON pretty-printer behind `PrintForLogger`.

Each operation is a pure function or a small method over immutable datatypes:

- An exception is a `Raised(exn)` outcome or a `Failure(exn)` result, identified by its .NET type. Each `catch` clause of the source is reproduced by type.
- Calls into code outside the core are parameters that give each call's outcome. This covers participants, driver connections and transactions, data readers, row mappers, the serializer, the identifier escaper and subscribers.
- Every manager and provider operation returns the calls it made, in order. This lets ordering, at-most-once and "no call at all" properties be stated.
- Where the code does something other than its documentation or evident intent, the model follows the code. A corrected version sits beside it (see "Findings").

Modules: `Exceptions`, `Text` (the .NET string functions used), `Participants`, `TransactionManager`, `TransactionScenarios`, `DbProvider`, `ProviderParticipant`, `ConnectionUtils`, `RowMapper`, `Parameters`, `OracleParameters`, `DB2Parameters`, `SqlBuilder`, `JsonFormat`.

## Model

| member | source | states |
|---|---|---|
| TransactionManager.AbortBoth | AdoNetTemplate/Database/Generic/TransactionManager.cs:244-254 | after a failed prepare, Inner is aborted, and Outer too unless Inner's abort raised; the prepare failure surfaces as TransactionException and the flags are untouched |
| TransactionManager.Prepare | AdoNetTemplate/Database/Generic/TransactionManager.cs:209-255 | Outer is prepared first; Inner is prepared iff Outer prepared; success iff both prepared; a TransactionException from either leads to the aborts; any other exception propagates with no abort |
| TransactionManager.Create | AdoNetTemplate/Database/Generic/TransactionManager.cs:139-179 | a null participant raises ArgumentNullException with no call; otherwise both subscriptions come before Outer's prepare; a constructed scope is fresh, and its timer is armed iff the timeout is non-zero |
| TransactionManager.CommitHandler | AdoNetTemplate/Database/Generic/TransactionManager.cs:525-538 | an event from a side marks only that side complete and makes `complete` the conjunction of the side flags; an event from any other sender changes nothing |
| TransactionManager.ParticipantCommit | AdoNetTemplate/Database/Core/ITransactionParticipant.cs:59-63 | one Commit call; its side ends marked iff it was marked, the observer fired before the commit, or it fired after a successful one; the other side and the timeout/dispose flags are untouched |
| TransactionManager.InternRollback | AdoNetTemplate/Database/Generic/TransactionManager.cs:438-455 | one Rollback call; it returns iff the participant returned or raised ObjectDisposedException or TransactionException, and otherwise re-raises the same exception |
| TransactionManager.Rollback | AdoNetTemplate/Database/Generic/TransactionManager.cs:464-518 | a no-op on a complete scope; otherwise Inner is rolled back iff not complete, and Outer iff not complete and Inner's rollback did not escape; at most one call per side, Inner first; on return the scope is complete and nothing else changed |
| TransactionManager.RollbackSide | AdoNetTemplate/Database/Generic/TransactionManager.cs:409-436 | on an incomplete scope the side is rolled back only if not yet finished, and ends marked finished; the other side's flag is kept; on return `complete` is the conjunction of the side flags |
| TransactionManager.RollbackInner | AdoNetTemplate/Database/Generic/TransactionManager.cs:424-436 | a complete scope is left as it is with no call; otherwise Inner is rolled back only if it is unfinished, Inner is marked and Outer's flag is unchanged; it returns normally iff Inner was finished or its rollback exception is tolerated, and then `complete` is recomputed from both sides; timedOut and disposed are kept |
| TransactionManager.RollbackOuter | AdoNetTemplate/Database/Generic/TransactionManager.cs:409-422 | a complete scope is left as it is with no call; otherwise Outer is rolled back only if it is unfinished, Outer is marked and Inner's flag is unchanged; it returns normally iff Outer was finished or its rollback exception is tolerated, and then `complete` is recomputed from both sides; timedOut and disposed are kept |
| TransactionManager.Timeout | AdoNetTemplate/Database/Generic/TransactionManager.cs:191-203 | the scope ends timed out; a complete scope makes no call; an incomplete one rolls Inner back iff Inner is unfinished and is complete on return; only rollbacks, none repeated |
| TransactionManager.TimerCallback | AdoNetTemplate/Database/Generic/TransactionManager.cs:185-189 | as written: with different participant types the swapped cast yields null and the callback raises NullReferenceException, leaving the scope untouched |
| TransactionManager.TimerCallbackIntended | AdoNetTemplate/Database/Generic/TransactionManager.cs:185-203 | with the cast corrected, an expired scope is always marked timed out; with honest participants an incomplete scope is rolled back on each unfinished side and ends complete |
| TransactionManager.RollbackThenRaise | AdoNetTemplate/Database/Generic/TransactionManager.cs:290-295 | after a failed commit the rollback's calls follow the commit's, and the operation always ends raising |
| TransactionManager.CommitSide | AdoNetTemplate/Database/Generic/TransactionManager.cs:299-359 | guard order: disposed, then finished, then timed out; a refusal makes no call; the other side is never committed; a rollback happens only after a TransactionException from the commit; a silent successful commit leaves the flags unchanged |
| TransactionManager.CommitInner | AdoNetTemplate/Database/Generic/TransactionManager.cs:299-328 | refused without a call on a finished or timed-out scope; never commits Outer |
| TransactionManager.CommitOuter | AdoNetTemplate/Database/Generic/TransactionManager.cs:330-359 | refused without a call on a finished or timed-out scope; never commits Inner |
| TransactionManager.JointCommit | AdoNetTemplate/Database/Generic/TransactionManager.cs:364-407 | Inner is committed first; Outer is committed iff Inner's commit returned; success iff both returned, and then the scope is complete; a failure surfaces as the first commit exception |
| TransactionManager.Complete | AdoNetTemplate/Database/Generic/TransactionManager.cs:260-297 | disposed raises ObjectDisposedException, and complete or timed out raises InvalidOperationException, each with no call; when one side already finished, that side is never committed again |
| TransactionManager.CompleteIntended | AdoNetTemplate/Database/Generic/TransactionManager.cs:260-297 | corrected Complete: with honest participants, a failed joint commit raises TransactionException and leaves the scope complete; when Inner, raising no CommitObserver event before committing, fails to commit, Outer is never committed and both participants are rolled back |
| TransactionManager.Dispose | AdoNetTemplate/Database/Generic/TransactionManager.cs:549-603 | always returns and ends complete; a second Dispose makes no call; Inner is rolled back iff the scope was unfinished; the cleans follow a non-escaping rollback; disposed iff rollback and both cleans succeeded, and then the timer is dropped |
| TransactionScenarios.PrepareTrace | AdoNetTemplate/Database/Generic/TransactionManager.cs:209-255 | every prepare trace has no repeated call and no subscribe, commit or rollback, and aborts Inner before Outer |
| TransactionScenarios.CreateTrace | AdoNetTemplate/Database/Generic/TransactionManager.cs:139-179 | the constructor never repeats a call and never commits or rolls back |
| TransactionScenarios.OuterPrepareFailure | AdoNetTemplate/Database/Generic/TransactionManager.cs:215-254 | Outer failing to prepare means Inner is never prepared, both are aborted, nothing is committed or rolled back, and the constructor raises TransactionException |
| TransactionScenarios.InnerPrepareFailure | AdoNetTemplate/Database/Generic/TransactionManager.cs:229-254 | Inner failing to prepare after Outer prepared means both are aborted once each, with no commit or rollback |
| TransactionScenarios.CompleteCommitsInnerBeforeOuter | AdoNetTemplate/Database/Generic/TransactionManager.cs:364-407 | on the joint path Outer is committed only after Inner committed successfully, and no commit follows Outer's |
| TransactionScenarios.CommitSideTrace | AdoNetTemplate/Database/Generic/TransactionManager.cs:299-359 | a side commit never repeats a call, never prepares or aborts, and never commits after a rollback |
| TransactionScenarios.CompleteTrace | AdoNetTemplate/Database/Generic/TransactionManager.cs:260-297 | Complete never repeats a call, never prepares or aborts, and never commits after a rollback |
| TransactionScenarios.FailedJointCommitSkipsRollback | AdoNetTemplate/Database/Generic/TransactionManager.cs:285-295 | as written: when Inner's commit fails, with no observer event, there is no rollback at all; the scope reports complete and TransactionException is raised |
| TransactionScenarios.IntendedFailedCommitRollsBackBoth | AdoNetTemplate/Database/Generic/TransactionManager.cs:285-295 | corrected: for an Inner participant that does not raise CommitObserver before committing, when Inner fails to commit, Outer is never committed, both are rolled back once each (Inner first), and TransactionException is raised |
| TransactionScenarios.ObserverBeforeFailedCommitSkipsInnerRollback | AdoNetTemplate/Database/Generic/GenericDbProvider.cs:159-165 | with the provider's before-commit event, a failed Inner commit in Complete is never rolled back: only Outer is, and Inner stays marked complete |
| TransactionScenarios.ObserverBeforeFailedCommitInner | AdoNetTemplate/Database/Generic/TransactionManager.cs:299-328 | the same for CommitInner: Inner is marked complete although its commit failed, and only Outer is rolled back |
| TransactionScenarios.CommitInnerThenComplete | AdoNetTemplate/Database/Generic/TransactionManager.cs:270-277 | after an independent successful Inner commit, Complete commits Outer only |
| TransactionScenarios.CompleteTwice | AdoNetTemplate/Database/Generic/TransactionManager.cs:266-269 | after a Complete that returned (its last committed side raising its observer), a second Complete raises InvalidOperationException with no call and no change |
| TransactionScenarios.SilentDelegatedCommitRepeats | AdoNetTemplate/Database/Generic/TransactionManager.cs:270-273 | without an observer event the delegated commit leaves the scope unchanged, so a second Complete commits Outer again |
| TransactionScenarios.CommitSideLeavesFlagsToObserver | AdoNetTemplate/Database/Generic/TransactionManager.cs:318-327 | CommitInner/CommitOuter never set the side flags themselves, whatever the commit's outcome |
| TransactionScenarios.TimedOutRefusesCommits | AdoNetTemplate/Database/Generic/TransactionManager.cs:191-203 | after a timeout, Complete, CommitInner and CommitOuter all raise with no participant call |
| TransactionScenarios.DisposedParticipantDoesNotStopRollback | AdoNetTemplate/Database/Generic/TransactionManager.cs:471-516 | an ObjectDisposedException from Inner's rollback is tolerated: Outer is still rolled back and the timeout returns with the scope complete |
| TransactionScenarios.RollbackBothInEitherOrder | AdoNetTemplate/Database/Generic/TransactionManager.cs:409-436 | RollbackInner then RollbackOuter, or the reverse, rolls each side back exactly once and ends the scope complete |
| TransactionScenarios.RollbackSideOnce | AdoNetTemplate/Database/Generic/TransactionManager.cs:409-436 | a second rollback of the same side makes no call |
| TransactionScenarios.DisposeTrace | AdoNetTemplate/Database/Generic/TransactionManager.cs:549-589 | Dispose never repeats a call, never commits, never rolls back after cleaning has begun, and never rolls back a complete scope |
| TransactionScenarios.DisposeTwice | AdoNetTemplate/Database/Generic/TransactionManager.cs:549-603 | disposing a fresh scope rolls back and cleans both sides in that order and stops the timer; a second Dispose makes no call |
| TransactionScenarios.DisposeAfterEscapingRollback | AdoNetTemplate/Database/Generic/TransactionManager.cs:551-588 | a rollback exception outside the tolerated types is swallowed, the scope is left not disposed, and a second Dispose cleans without rolling back |
| TransactionScenarios.RollbackKeepsCoherence | AdoNetTemplate/Database/Generic/TransactionManager.cs:464-518 | with honest participants Rollback returns and keeps "both sides finished implies complete" |
| TransactionScenarios.ParticipantCommitKeepsCoherence | AdoNetTemplate/Database/Generic/TransactionManager.cs:525-538 | an observer-driven flag change keeps "both sides finished implies complete" |
| TransactionScenarios.CommitSideKeepsCoherence | AdoNetTemplate/Database/Generic/TransactionManager.cs:299-359 | CommitInner/CommitOuter keep "both sides finished implies complete" |
| TransactionScenarios.CompleteKeepsCoherence | AdoNetTemplate/Database/Generic/TransactionManager.cs:260-297 | Complete keeps "both sides finished implies complete" |
| TransactionScenarios.OperationsKeepCoherence | AdoNetTemplate/Database/Generic/TransactionManager.cs:191-538 | every manager operation keeps "both sides finished implies complete" when the participants honour their contract |
| TransactionScenarios.CoherentCompleteNeverRecommits | AdoNetTemplate/Database/Generic/TransactionManager.cs:266-269 | on a coherent scope with both sides finished, Complete refuses with no call |
| TransactionScenarios.EscapingRollbackBreaksCoherence | AdoNetTemplate/Database/Generic/TransactionManager.cs:409-422 | a rollback that raises an exception of another type leaves both sides marked while the scope is not complete |
| DbProvider.FromConnectionString | AdoNetTemplate/Database/Generic/GenericDbProvider.cs:37-40 | a null string raises ArgumentNullException; otherwise the provider has no connection, no transaction and no subscribers |
| DbProvider.FromConnection | AdoNetTemplate/Database/Generic/GenericDbProvider.cs:42-45 | a null connection raises ArgumentNullException; otherwise the provider holds that connection and a null connection string |
| DbProvider.Subscribe | AdoNetTemplate/Database/Generic/GenericDbProviderTP.cs:23-34 | the handler is appended to the invocation list, and nothing else changes |
| DbProvider.Unsubscribe | AdoNetTemplate/Database/Generic/GenericDbProviderTP.cs:23-34 | removing an absent handler changes nothing; otherwise the last occurrence of it leaves the list, and the handlers before and after it keep their order |
| DbProvider.LastIndexOf | AdoNetTemplate/Database/Generic/GenericDbProviderTP.cs:23-34 | the position it gives holds the handler, and no later position does |
| DbProvider.RemoveLast | AdoNetTemplate/Database/Generic/GenericDbProviderTP.cs:23-34 | delegate removal: an absent handler leaves the list as it is; otherwise one occurrence fewer, the rest of the multiset kept |
| DbProvider.RemoveLastAt | AdoNetTemplate/Database/Generic/GenericDbProviderTP.cs:23-34 | the occurrence removed is the one at the last position holding the handler, and the other handlers keep their order |
| DbProvider.SubscribeRoundTrip | AdoNetTemplate/Database/Generic/GenericDbProviderTP.cs:23-34 | unsubscribing a handler just subscribed restores the provider |
| DbProvider.OpenInternal | AdoNetTemplate/Database/Generic/GenericDbProvider.cs:99-126 | no connection raises DataException; it returns iff a usable connection remains; a usable connection makes no call; Broken is closed then opened; only the connection's state changes |
| DbProvider.OpenConnection | AdoNetTemplate/Database/Generic/GenericDbProvider.cs:65-88 | every failure is DataException; on return the connection is usable; a connection with a non-blank DataSource is reused without creation; otherwise a new one is created and given the provider's connection string; nothing but the connection changes |
| DbProvider.CloseConnection | AdoNetTemplate/Database/Generic/GenericDbProvider.cs:93-96 | no connection means no call; otherwise one Close, whose outcome is the result, and on success the connection is Closed |
| DbProvider.BeginTransaction | AdoNetTemplate/Database/Generic/GenericDbProvider.cs:133-148 | every failure is TransactionException and leaves the provider as it was; success iff there is a connection and the driver begins, and then the transaction has the requested level |
| DbProvider.BeginDefaultTransaction | AdoNetTemplate/Database/Generic/GenericDbProvider.cs:128-131 | a successful parameterless begin opens a ReadCommitted transaction |
| DbProvider.NotifyAll | AdoNetTemplate/Database/Generic/GenericDbProvider.cs:154-157 | subscribers are notified in order up to and including the first that raises; it returns iff none raises, and then all were notified |
| DbProvider.CommitTransaction | AdoNetTemplate/Database/Generic/GenericDbProvider.cs:159-165 | every subscriber is notified before the driver commit; success iff no subscriber raises, there is a transaction and commit and dispose succeed, and then the transaction is gone; a failure changes nothing |
| DbProvider.RollbackTransaction | AdoNetTemplate/Database/Generic/GenericDbProvider.cs:167-172 | no transaction raises NullReferenceException; success iff rollback and dispose succeed, and then the transaction is gone; never commits |
| DbProvider.ReleaseConnection | AdoNetTemplate/Database/Generic/GenericDbProvider.cs:255-258 | on success the connection is gone; only the connection field changes |
| DbProvider.Dispose | AdoNetTemplate/Database/Generic/GenericDbProvider.cs:238-295 | always returns and ends disposed; a second call does nothing; it never commits; a pending transaction is rolled back first; with a cooperative driver transaction and connection are both released |
| DbProvider.DisposeTwice | AdoNetTemplate/Database/Generic/GenericDbProvider.cs:238-277 | a second Dispose makes no call and changes nothing |
| DbProvider.DisposeRollsBackBeforeClosing | AdoNetTemplate/Database/Generic/GenericDbProvider.cs:238-277 | a pending transaction is rolled back and disposed before the connection is closed |
| ProviderParticipant.Prepare | AdoNetTemplate/Database/Generic/GenericDbProviderTP.cs:67-79 | every failure is TransactionException; on success a usable connection carries a ReadCommitted transaction begun last; a begin is attempted only after a successful open |
| ProviderParticipant.Commit | AdoNetTemplate/Database/Generic/GenericDbProviderTP.cs:54-65 | every failure is TransactionException and changes nothing; success iff the provider's commit succeeds, and then the transaction is gone |
| ProviderParticipant.Rollback | AdoNetTemplate/Database/Generic/GenericDbProviderTP.cs:81-91 | every failure is TransactionException; success iff there is a transaction and rollback and dispose succeed; never commits |
| ProviderParticipant.Abort | AdoNetTemplate/Database/Generic/GenericDbProviderTP.cs:41-45 | disposes a pending transaction and forgets it; its Dispose exception escapes unwrapped and changes nothing |
| ProviderParticipant.Clean | AdoNetTemplate/Database/Generic/GenericDbProviderTP.cs:47-52 | Abort's work, then closes the connection; without a connection it raises NullReferenceException |
| ProviderParticipant.KeepsInterfaceContract | AdoNetTemplate/Database/Core/ITransactionParticipant.cs:19-46 | Prepare, Commit and Rollback fail only with TransactionException, whatever the driver does |
| ProviderParticipant.AbortMayBreakInterfaceContract | AdoNetTemplate/Database/Core/ITransactionParticipant.cs:26-27 | Abort can raise an exception that is not a TransactionException |
| ProviderParticipant.CommitNotifiesBeforeCommitting | AdoNetTemplate/Database/Generic/GenericDbProvider.cs:150-165 | a subscribed handler is notified before any driver commit |
| ProviderParticipant.CommitAfterPrepare | AdoNetTemplate/Database/Generic/GenericDbProviderTP.cs:54-79 | after a successful Prepare, a Commit with non-raising subscribers notifies each in order, then commits, disposes and returns |
| ConnectionUtils.DoDisposeCommand | AdoNetTemplate/Database/Support/ConnectionUtils.cs:104-115 | the command ends disposed iff it was or both clear and dispose succeeded; a failing clear leaves it as it was; no exception escapes |
| ConnectionUtils.DisposeCommand | AdoNetTemplate/Database/Support/ConnectionUtils.cs:31-37 | null stays null; a cooperative command ends cleared and disposed |
| ConnectionUtils.DisposeDataAdapterCommands | AdoNetTemplate/Database/Support/ConnectionUtils.cs:43-64 | a null adapter is skipped; each slot is DisposeCommand of that slot's command, so null slots stay null and every present command of a cooperative slot ends cleared and disposed |
| ConnectionUtils.DisposeCommandTwice | AdoNetTemplate/Database/Support/ConnectionUtils.cs:31-37 | disposing a command a second time, with the driver answering as before, changes nothing more |
| ConnectionUtils.DisposeDataAdapterCommandsTwice | AdoNetTemplate/Database/Support/ConnectionUtils.cs:43-64 | disposing an adapter's commands twice is disposing them once |
| ConnectionUtils.CloseUnlessInTransaction | AdoNetTemplate/Database/Support/ConnectionUtils.cs:123-142 | never raises; with a pending transaction it makes no call; otherwise it closes the connection; the transaction is kept |
| ConnectionUtils.CloseUnlessInTransactionSwallowsClose | AdoNetTemplate/Database/Support/ConnectionUtils.cs:123-142 | with no pending transaction the helper makes the same calls and leaves the provider as CloseConnection does, but always returns normally |
| ConnectionUtils.RequiredUniqueResultSet | AdoNetTemplate/Database/Support/ConnectionUtils.cs:177-191 | fails, with ConstraintException, iff there is more than one result; one result is returned; none or null gives the default |
| ConnectionUtils.UniqueResultRoundTrip | AdoNetTemplate/Database/Support/ConnectionUtils.cs:177-191 | a successful check of a non-empty list returns the list's only element |
| RowMapper.NewExtractor | AdoNetTemplate/Database/Core/RowMapperResultSetExtractor.cs:42-46 | a null mapper raises ArgumentNullException; otherwise the extractor keeps it |
| RowMapper.ExtractData | AdoNetTemplate/Database/Core/RowMapperResultSetExtractor.cs:50-65 | a null reader raises ArgumentNullException; success iff every row maps and the final `Read()` returns false, and then result `i` is row `i` mapped with number `i`; otherwise the error is the first failing row's, or else the one the final `Read()` raised |
| Parameters.New | AdoNetTemplate/Database/Generic/GenericParametersWrapper.cs:40-47 | keys other than int and string raise ArgumentException; otherwise the wrapper is empty and valid and keeps the array count |
| Parameters.ContainsKey | AdoNetTemplate/Database/Generic/GenericParametersWrapper.cs:60-63 | true iff some entry has the key |
| Parameters.Get | AdoNetTemplate/Database/Generic/GenericParametersWrapper.cs:50-52 | a missing key raises KeyNotFoundException; otherwise the parameter stored under the key |
| Parameters.Store | AdoNetTemplate/Database/Generic/GenericParametersWrapper.cs:53-57 | reading the key back gives the parameter renamed `par_<key>`; a new key is appended, a present one replaced in place; validity is kept; the caller's own object is not renamed (see Left out) |
| Parameters.SetValue | AdoNetTemplate/Database/Generic/GenericParametersWrapper.cs:50-58 | only the key's value changes; keys, order and validity are kept |
| Parameters.StoreLeavesOtherKeys | AdoNetTemplate/Database/Generic/GenericParametersWrapper.cs:53-57 | storing under one key leaves every other key's parameter as it was, for parameters that are distinct objects (see Left out) |
| Parameters.SetValueLeavesOtherKeys | AdoNetTemplate/Database/Generic/GenericParametersWrapper.cs:50-58 | setting one key's value leaves every other key's parameter as it was, for parameters that are distinct objects (see Left out) |
| Parameters.SetUpParameters | AdoNetTemplate/Database/Generic/GenericParametersWrapper.cs:66-85 | a disposed wrapper raises InvalidOperationException; otherwise every parameter is appended to the collection in list order |
| Parameters.IntKeysBindInInsertionOrder | AdoNetTemplate/Database/Generic/GenericParametersWrapper.cs:71-77 | with int keys 1 then 0 stored, `par_1` is bound before `par_0`: the bind order is insertion order, not key order |
| Parameters.BoundNamesDistinct | AdoNetTemplate/Database/Generic/GenericParametersWrapper.cs:66-85 | with keys all of the wrapper's TKey and each stored parameter a distinct object (see Left out), the parameters bound onto the command have pairwise distinct names |
| Parameters.SetUpCommand | AdoOracle/DataBase/OracleParametersWrapper.cs:39-51 | another driver's command raises SystemException; a positive ArrayBindCount is copied to the command, which otherwise keeps its own |
| Parameters.SetUpCommandIdempotent | AdoDB2/Database/DB2ParametersWrapper.cs:38-50 | setting up a command a second time leaves it as the first set-up did |
| Parameters.Line | AdoNetTemplate/Database/Generic/GenericParametersWrapper.cs:96-100 | a parameter's line opens with `[`, its name and ` = `, has the length of name, value text and five delimiter characters plus the terminator, and ends with `]` and the terminator |
| Parameters.Listing | AdoNetTemplate/Database/Generic/GenericParametersWrapper.cs:89-105 | the text is empty iff there are no parameters |
| Parameters.TextOfStore | AdoNetTemplate/Database/Generic/GenericParametersWrapper.cs:89-105 | storing a new key appends its `[name = value]` line and keeps the rest of the text |
| Parameters.ListingHasEveryLine | AdoNetTemplate/Database/Generic/GenericParametersWrapper.cs:89-105 | each parameter's line comes right after the lines of the parameters before it |
| Parameters.Dispose | AdoDB2/Database/DB2ParametersWrapper.cs:52-77 | the wrapper ends disposed and, on the first call, empty; a second call changes nothing |
| Parameters.ArgValue | AdoOracle/DataBase/OracleParametersExtensions.cs:175-186 | a null nullable array raises NullReferenceException; otherwise its null elements become DBNull, keeping length and order |
| Parameters.Stored | AdoOracle/DataBase/OracleParametersExtensions.cs:197 | null is stored as DBNull; any other value as it is |
| Parameters.SetIn | AdoOracle/DataBase/OracleParametersExtensions.cs:195-254 | a present key gets only its value replaced; a new key gets a parameter of the mapped driver type, or ArgumentException when the TypeCode has no mapping; validity is kept |
| Parameters.SetNullWith | AdoOracle/DataBase/OracleParametersExtensions.cs:137-173 | an unmapped TypeCode raises ArgumentException even for a present key; otherwise the key ends holding DBNull, or the empty string for String |
| Parameters.SetInWithType | AdoOracle/DataBase/OracleParametersExtensions.cs:256-276 | the explicitly typed setter: a present key gets only its value, a new key a parameter of that type |
| Parameters.SetOut | AdoOracle/DataBase/OracleParametersExtensions.cs:324-335 | the key ends holding a valueless output parameter of the given type, whatever it held before |
| Parameters.Unbox | AdoOracle/DataBase/OracleParametersExtensions.cs:430-478 | only a value of the driver's type unboxes; null raises NullReferenceException and anything else InvalidCastException |
| Parameters.ReadOut | AdoOracle/DataBase/OracleParametersExtensions.cs:420-505 | as written: a missing key raises DataException; DBNull gives null; an unlisted TypeCode raises ArgumentException; a listed one whose check rejects the type raises ArgumentException; otherwise the cast of the stored value; both formatted messages raise FormatException instead when the key breaks the format |
| Parameters.IntKeysFormat | AdoOracle/DataBase/OracleParametersExtensions.cs:497 | an `int` key never breaks the format of a message |
| Parameters.MissingKeyMessage | AdoOracle/DataBase/OracleParametersExtensions.cs:497 | the missing-key message fails to format exactly when the key's text does, and with a brace-free key it formats to itself |
| Parameters.WrongTypeMessage | AdoOracle/DataBase/OracleParametersExtensions.cs:503-504 | with a brace-free driver type name, the wrong-type message fails to format exactly when the key's text does, and with a brace-free key too it formats to itself |
| Parameters.ReadOutIntended | AdoOracle/DataBase/OracleParametersExtensions.cs:420-505 | corrected: with plain messages, a missing key always raises DataException and a rejected or unlisted type always ArgumentException, whatever the key |
| Parameters.ReadOutAgreesWithoutBraces | AdoOracle/DataBase/OracleParametersExtensions.cs:497-505 | as written and corrected agree on every key that does not break the format; on one that does, a missing key raises FormatException |
| Parameters.BraceInKeyBreaksReadOut | AdoDB2/Support/DB2ParametersExtensions.cs:400-409 | the missing string key `a{b` raises FormatException as written and DataException as corrected |
| Parameters.ReadFilledOutput | AdoOracle/DataBase/OracleParametersExtensions.cs:324-505 | an output parameter filled by a command reads back as its value iff the type check admits its registered type; otherwise ArgumentException, or FormatException for a key that breaks the format (always ArgumentException when corrected) |
| OracleParameters.DbTypeOf | AdoOracle/DataBase/OracleParametersExtensions.cs:203-250 | exactly Int16, Int32, Int64, Decimal, Double, String, DateTime and Boolean have a driver type |
| OracleParameters.DbTypeOfInjective | AdoOracle/DataBase/OracleParametersExtensions.cs:203-250 | distinct TypeCodes map to distinct driver types |
| OracleParameters.BoundTypeCode | AdoOracle/DataBase/OracleParametersExtensions.cs:79-80 | a decimal array is bound with the Double TypeCode; every other overload uses its own value type |
| OracleParameters.Set | AdoOracle/DataBase/OracleParametersExtensions.cs:23-113 | a null nullable array raises NullReferenceException; otherwise it is the common setter with the overload's TypeCode; validity is kept |
| OracleParameters.SettersAlwaysMap | AdoOracle/DataBase/OracleParametersExtensions.cs:23-113 | every typed setter on a new key succeeds and stores an input parameter of its mapped type |
| OracleParameters.DecimalArrayIsBoundAsDouble | AdoOracle/DataBase/OracleParametersExtensions.cs:79-80 | a decimal array is stored as Double and reading it back as Decimal raises ArgumentException, or FormatException for a key that breaks the format |
| OracleParameters.SetOnPresentKeyKeepsRegistration | AdoOracle/DataBase/OracleParametersExtensions.cs:199-202 | setting a present key changes only its value, and keeps its direction and type |
| OracleParameters.SetClob | AdoOracle/DataBase/OracleParametersExtensions.cs:115-119 | a new key gets a Clob input parameter; a present key keeps its type |
| OracleParameters.SetBlob | AdoOracle/DataBase/OracleParametersExtensions.cs:121-125 | a new key gets a Blob input parameter; a present key keeps its type |
| OracleParameters.SetNull | AdoOracle/DataBase/OracleParametersExtensions.cs:134-173 | fails iff the TypeCode is unmapped; otherwise the key holds DBNull, or the empty string for String, with the mapped type on a new key |
| OracleParameters.RegisterOutParameter | AdoOracle/DataBase/OracleParametersExtensions.cs:278-335 | fails with ArgumentException iff the TypeCode is unmapped; otherwise the key holds a valueless output parameter of the mapped type |
| OracleParameters.RegisterRefCursor | AdoOracle/DataBase/OracleParametersExtensions.cs:396-397 | the key holds a valueless RefCursor output parameter |
| OracleParameters.TypeName | AdoOracle/DataBase/OracleParametersExtensions.cs:503-504 | `Enum.GetName` of the driver type is a non-empty name with no brace, so it never breaks the message's format |
| OracleParameters.Accepts | AdoOracle/DataBase/OracleParametersExtensions.cs:427-478 | as written, the check admits only listed TypeCodes and never String; for every other TypeCode it admits exactly the driver type the setters register for it |
| OracleParameters.AcceptsIntended | AdoOracle/DataBase/OracleParametersExtensions.cs:455-465 | the corrected check admits everything the as-written one does, only listed TypeCodes, and the registered driver type of every listed TypeCode, String included |
| OracleParameters.AcceptsOwnType | AdoOracle/DataBase/OracleParametersExtensions.cs:420-499 | as written, the type check admits each registered type for its own TypeCode except String; the corrected check admits all of them |
| OracleParameters.GetValue | AdoOracle/DataBase/OracleParametersExtensions.cs:420-505 | a missing key raises DataException, or FormatException for a key that breaks the format; String never succeeds; any other success means the parameter has the requested TypeCode's type; a present key fails otherwise only by the cast or by a key that breaks the format |
| OracleParameters.GetValueIntended | AdoOracle/DataBase/OracleParametersExtensions.cs:455-505 | with the corrected String check and plain messages, a missing key always raises DataException, a type the check rejects always ArgumentException, and any other success means the parameter has the requested TypeCode's type |
| OracleParameters.BraceInKeyBreaksGetValue | AdoOracle/DataBase/OracleParametersExtensions.cs:495-498 | GetValue on the missing string key `a{b` raises FormatException, and the corrected getter DataException |
| OracleParameters.GetTyped | AdoOracle/DataBase/OracleParametersExtensions.cs:399-418 | the typed getters are GetValue at their TypeCode, and GetString never succeeds |
| OracleParameters.OutputRoundTrip | AdoOracle/DataBase/OracleParametersExtensions.cs:393-505 | registering, filling and reading back gives the filled value for every mapped TypeCode except String, which raises ArgumentException, or FormatException for a key that breaks the format |
| OracleParameters.OutputRoundTripIntended | AdoOracle/DataBase/OracleParametersExtensions.cs:393-499 | with the corrected check the round trip gives the filled value for every mapped TypeCode |
| OracleParameters.UnfilledOutputRaises | AdoOracle/DataBase/OracleParametersExtensions.cs:420-499 | reading an output before any command filled it raises NullReferenceException |
| DB2Parameters.InTypeOf | AdoDB2/Support/DB2ParametersExtensions.cs:168-227 | exactly Int16, Int32, Int64, Decimal, Double, String and DateTime have an input type |
| DB2Parameters.OutTypeOf | AdoDB2/Support/DB2ParametersExtensions.cs:251-294 | the output table has the same domain as the input table and agrees with it except that Int64 becomes Int8 |
| DB2Parameters.Set | AdoDB2/Support/DB2ParametersExtensions.cs:24-90 | a null nullable array raises NullReferenceException; otherwise a new key gets an input parameter of the mapped type and a present key only its value; validity is kept |
| DB2Parameters.SetClob | AdoDB2/Support/DB2ParametersExtensions.cs:92-96 | a new key gets a Clob input parameter; a present key keeps its type |
| DB2Parameters.SetBlob | AdoDB2/Support/DB2ParametersExtensions.cs:98-102 | a new key gets a Blob input parameter; a present key keeps its type |
| DB2Parameters.SetNull | AdoDB2/Support/DB2ParametersExtensions.cs:111-146 | fails iff the TypeCode is unmapped, Boolean included; otherwise the key holds DBNull, or the empty string for String |
| DB2Parameters.RegisterOutParameter | AdoDB2/Support/DB2ParametersExtensions.cs:251-308 | fails with ArgumentException iff unmapped; otherwise a valueless output parameter of the output table's type |
| DB2Parameters.RegisterOutParameterIntended | AdoDB2/Support/DB2ParametersExtensions.cs:268-269 | corrected: registers the type GetValue expects, the input table's, so Int64 becomes BigInt |
| DB2Parameters.TypeName | AdoDB2/Support/DB2ParametersExtensions.cs:408-409 | `Enum.GetName` of the driver type is a non-empty name with no brace, so it never breaks the message's format |
| DB2Parameters.Accepts | AdoDB2/Support/DB2ParametersExtensions.cs:338-389 | as written, the check admits only listed TypeCodes and never String; DateTime admits both the input and the output registration; every other TypeCode admits exactly the driver type the input setter registers |
| DB2Parameters.AcceptsIntended | AdoDB2/Support/DB2ParametersExtensions.cs:366-376 | the corrected check admits everything the as-written one does, only listed TypeCodes, and the input-table type of every listed TypeCode, String included |
| DB2Parameters.AcceptsOwnType | AdoDB2/Support/DB2ParametersExtensions.cs:331-404 | as written the check admits the registered output type except for Int64 and String; the corrected check admits each input-table type |
| DB2Parameters.GetValue | AdoDB2/Support/DB2ParametersExtensions.cs:331-410 | a missing key raises DataException, or FormatException for a key that breaks the format; String, Boolean and Object never succeed; any other success means the parameter has the requested TypeCode's type; a present key fails otherwise only by the cast or by a key that breaks the format |
| DB2Parameters.GetValueIntended | AdoDB2/Support/DB2ParametersExtensions.cs:366-410 | with the corrected String check and plain messages, a missing key always raises DataException, a type the check rejects always ArgumentException, and a success for a scalar TypeCode means the parameter has the requested type |
| DB2Parameters.BraceInKeyBreaksGetValue | AdoDB2/Support/DB2ParametersExtensions.cs:400-403 | GetValue on the missing string key `a{b` raises FormatException, and the corrected getter DataException |
| DB2Parameters.GetTimeSpan | AdoDB2/Support/DB2ParametersExtensions.cs:325-329 | always fails: ArgumentException for a present key (Object is not listed, and that message is not formatted); for a missing one DataException, or FormatException for a key that breaks the format |
| DB2Parameters.LongOutputNeverReads | AdoDB2/Support/DB2ParametersExtensions.cs:268-269 | an Int64 output, once registered and filled, raises ArgumentException on GetLong, or FormatException for a key that breaks the format |
| DB2Parameters.OutputRoundTrip | AdoDB2/Support/DB2ParametersExtensions.cs:251-410 | registering, filling and reading back gives the value except for Int64 and String, which raise ArgumentException, or FormatException for a key that breaks the format |
| DB2Parameters.OutputRoundTripIntended | AdoDB2/Support/DB2ParametersExtensions.cs:251-404 | with both corrections every mapped TypeCode reads back its filled value |
| SqlBuilder.WhereClause | AdoOracle/Support/OracleSQLBuilder.cs:138-145 | empty iff the dictionary is null or empty; otherwise it starts with `WHERE ` |
| SqlBuilder.WhereListsEveryCondition | AdoOracle/Support/OracleSQLBuilder.cs:138-145 | each entry appears as a `column = value` condition, after the earlier ones joined by AND |
| Text.FormatNoArgs | AdoOracle/Support/OracleSQLBuilder.cs:80 | string.Format with no arguments fails only with FormatException and never lengthens the text |
| Text.FormatWithoutBraces | AdoOracle/Support/OracleSQLBuilder.cs:80 | a text without braces formats to itself |
| Text.FormatRejectsFormatItem | AdoOracle/Support/OracleSQLBuilder.cs:80 | a lone opening brace makes formatting fail |
| Text.FormatAfterPlain | AdoOracle/DataBase/OracleParametersExtensions.cs:497 | brace-free text before a format string does not change whether formatting fails |
| Text.FormatBeforePlain | AdoOracle/DataBase/OracleParametersExtensions.cs:497 | brace-free text after a format string does not change whether formatting fails |
| SqlBuilder.InsertTextShape | AdoOracle/Support/OracleSQLBuilder.cs:32-38 | the statement opens with `INSERT INTO`, the table and the parenthesised columns, ends with the VALUES list and `)`, and holds a brace exactly when the table, columns or values do |
| SqlBuilder.BuildInsert | AdoOracle/Support/OracleSQLBuilder.cs:24-40 | null or empty table, or no columns, raises ArgumentException; a null list raises ArgumentNullException; success iff table and list are present and non-empty |
| SqlBuilder.InsertPairsColumnsWithPlaceholders | AdoOracle/Support/OracleSQLBuilder.cs:24-40 | split at commas, field `i` of the column list is column `i` escaped and field `i` of VALUES is `:column` |
| SqlBuilder.BuildInsertFrom | AdoOracle/Support/OracleSQLBuilder.cs:48-64 | null or empty table raises ArgumentException, a null dictionary NullReferenceException, an empty one ArgumentException; success iff table and dictionary are non-empty |
| SqlBuilder.InsertFromPairsKeysWithValues | AdoOracle/Support/OracleSQLBuilder.cs:48-64 | split at commas, the column list gives back the escaped keys and the VALUES list the values, in the same order |
| SqlBuilder.DeleteTextShape | AdoOracle/Support/OracleSQLBuilder.cs:80 | the statement opens with `DELETE FROM`, two spaces, the table and a space, ends with the WHERE clause, and holds a brace exactly when the table or the clause does |
| SqlBuilder.BuildDelete | AdoOracle/Support/OracleSQLBuilder.cs:74-83 | as written: null or empty table raises ArgumentException; the statement text goes through string.Format |
| SqlBuilder.BuildDeleteIntended | AdoOracle/Support/OracleSQLBuilder.cs:74-83 | fails iff the table is null or empty; the statement is `DELETE FROM  <table> ` followed by the WHERE clause, which is empty iff there is no condition |
| SqlBuilder.DeleteWithoutConditionIsUnrestricted | AdoOracle/Support/OracleSQLBuilder.cs:74-83 | a null and an empty condition dictionary both give an unrestricted DELETE |
| SqlBuilder.UpdateTextShape | AdoOracle/Support/OracleSQLBuilder.cs:104-106 | the statement opens with `UPDATE`, the table, `SET` and the assignments, ends with the WHERE clause, and holds a brace exactly when the table, assignments or clause do |
| SqlBuilder.BuildUpdate | AdoOracle/Support/OracleSQLBuilder.cs:95-109 | as written: table and SET checks with their exception types, then string.Format of the text |
| SqlBuilder.BuildUpdateIntended | AdoOracle/Support/OracleSQLBuilder.cs:95-109 | succeeds iff table and SET dictionary are non-empty, and the statement starts with `UPDATE <table> SET ` |
| SqlBuilder.SelectTextShape | AdoOracle/Support/OracleSQLBuilder.cs:134 | the statement opens with `SELECT`, the columns, `FROM` and the table, ends with the WHERE clause, and holds a brace exactly when the columns, table or clause do |
| SqlBuilder.BuildSelect | AdoOracle/Support/OracleSQLBuilder.cs:124-136 | as written: the column list check, then the table check, then string.Format of the text |
| SqlBuilder.BuildSelectIntended | AdoOracle/Support/OracleSQLBuilder.cs:124-136 | succeeds iff there are columns and a table, otherwise raises ArgumentException; the statement starts with `SELECT ` |
| SqlBuilder.BuildersAgreeWithoutBraces | AdoOracle/Support/OracleSQLBuilder.cs:74-136 | when no text holds a brace, the builders as written and as corrected agree |
| SqlBuilder.WhereOfOne | AdoOracle/Support/OracleSQLBuilder.cs:138-145 | a one-entry dictionary gives `WHERE <column> = <value>` |
| SqlBuilder.BraceInValueBreaksDelete | AdoOracle/Support/OracleSQLBuilder.cs:80 | a WHERE value such as `'{0}'` makes BuildDelete raise FormatException, while the corrected builder returns the statement |
| JsonFormat.UnderflowsIff | AdoNetTemplate/Database/Support/Extensions.cs:59-68 | the recursive underflow test holds exactly when some unquoted closer has no opener left to match |
| JsonFormat.UnderflowPersists | AdoNetTemplate/Database/Support/Extensions.cs:59-68 | once a prefix underflows, every longer prefix does |
| JsonFormat.LayoutOnly | AdoNetTemplate/Database/Support/Extensions.cs:50-96 | the formatter inserts only line breaks and spaces, nothing inside string literals, and nothing around characters other than brackets, commas and colons |
| JsonFormat.OutputExtends | AdoNetTemplate/Database/Support/Extensions.cs:48-98 | formatting a longer prefix only appends, so input characters keep their order |
| JsonFormat.EscapedAt | AdoNetTemplate/Database/Support/Extensions.cs:71-78 | the backward walk decides a quote is escaped iff an odd number of backslashes precede it |
| JsonFormat.FormatChar | AdoNetTemplate/Database/Support/Extensions.cs:50-96 | one character of the loop fails iff it is an unquoted closer at depth zero; otherwise it advances the quote state and the depth as the reference does and appends the reference's piece |
| JsonFormat.FormatJson | AdoNetTemplate/Database/Support/Extensions.cs:43-99 | fails with ArgumentOutOfRangeException iff some closer is unmatched; otherwise the text equals the reference formatting |
| JsonFormat.PrintForLogger | AdoNetTemplate/Database/Support/Extensions.cs:14-30 | a failing serializer or an unbalanced serialization logs the fallback line; otherwise the reference formatting plus a line break |
| JsonFormat.SmallArray | AdoNetTemplate/Database/Support/Extensions.cs:50-96 | `[1,2]` formats as a bracket, each element on its own line indented four spaces with the comma after the first, and a closing bracket on its own line |
| JsonFormat.EscapedQuoteStaysQuoted | AdoNetTemplate/Database/Support/Extensions.cs:71-78 | a comma after an escaped quote is still inside the string and gets no line break |

## Left out

- The timer thread, `rollbackLock` and concurrent calls: `Timeout` is an ordinary operation and `Rollback` is atomic.
- The DEBUG build's `ScopeTimeout` of -1 ms: the release behaviour is modelled.
- The .NET Timer's own argument checks on the timeout value.
- Logging and `TraceTransaction`: neither changes state, so `TraceTransaction` is taken not to raise.
- `CommitHandler`'s `sender.Equals` on a participant that is both Inner and Outer: a sender is Inner, Outer or a stranger.
- Parameters.Store: parameters are values, not shared objects, so the in-place rename of the caller's parameter object (`ParameterName = par_<i>`) and aliasing are not modelled; storing one parameter object under two keys, or setting a value through one of them, changes both entries in the source but only one here, and the rows of StoreLeavesOtherKeys, SetValueLeavesOtherKeys and BoundNamesDistinct hold for distinct parameter objects only.
- KeyedList is not part of this model. It is taken to be an insertion-ordered list with unique keys, replacement in place, and a positional indexer over insertion order.
- The finalizer paths (`Dispose(false)`) of the wrappers and the provider.
- The Oracle wrapper's asynchronous parameter disposal: its result is treated like DB2's synchronous `Clear`.
- `Parameters.Dispose` models the synchronous effect only.
- Driver casts with `as` that yield null, other than the timer callback's: the command types are a `sameDriver` flag.
- `Escape` and the JavaScriptSerializer: they are function parameters.
- `Environment.NewLine`: a parameter `nl`.
- A subscriber's exception is `DriverException`: its exact type is outside the core.
- Integer widths: `int` overflow of the indentation depth and of row numbers is not modelled, since neither is reachable with realistic inputs.
- Values are known by their text only: the numeric conversions of the getters and the DB2 `Time` to `TimeSpan` cast are left out.
- Null string keys and null column names are left out.
- RowMapper.ExtractData: a row mapper receives the row, not the reader, so a mapper that itself calls `Read()` and skips rows is not modelled.
- TransactionManager.CompleteIntended: corrects only the early `complete = true`; when Inner raises CommitObserver before a commit that fails (as the generic provider participant does), CommitHandler has already marked Inner complete, so Inner is still not rolled back and the rollback guarantee is not promised for that case (ObserverBeforeFailedCommitSkipsInnerRollback shows it).
- `DB2Parameters.GetValue`: the DateTime case admits Date, Timestamp and Time but the cast outcome is not distinguished per type.

## Findings

| source | as written | input that shows it | evidently intended | confidence | as-written member | corrected member |
|---|---|---|---|---|---|---|
| AdoNetTemplate/Database/Generic/TransactionManager.cs:285-295 | `complete = true` is set before the joint commit, so the `Rollback()` after a failed commit sees a complete scope and rolls nothing back | a fresh scope whose Inner commit raises TransactionException without a CommitObserver event | the scope is marked complete only by a successful commit, and a failed commit rolls both participants back (for an Inner participant that does not raise CommitObserver before committing) | not executed | TransactionScenarios.FailedJointCommitSkipsRollback | TransactionScenarios.IntendedFailedCommitRollsBackBoth |
| AdoNetTemplate/Database/Generic/TransactionManager.cs:185-189 | the callback casts its state to `TransactionManager<TInner, TOuter>`, with the type arguments swapped, so the cast gives null when the participant types differ | a scope whose Outer and Inner have different types, with a non-zero timeout that expires | cast to the scope's own type, and run Timeout | not executed | TransactionManager.TimerCallback | TransactionManager.TimerCallbackIntended |
| AdoOracle/DataBase/OracleParametersExtensions.cs:455-465 | the String check joins its `!=` tests with a logical OR, which holds for every type, so GetString always raises ArgumentException | a Varchar2 output parameter filled by a command, read with GetString | raise only when the type is none of the character types | not executed | OracleParameters.OutputRoundTrip | OracleParameters.OutputRoundTripIntended |
| AdoDB2/Support/DB2ParametersExtensions.cs:366-376 | the same always-true String check, so GetString always raises ArgumentException | a VarChar output parameter filled by a command, read with GetString | raise only when the type is none of the character types | not executed | DB2Parameters.OutputRoundTrip | DB2Parameters.OutputRoundTripIntended |
| AdoDB2/Support/DB2ParametersExtensions.cs:268-269 | an Int64 output parameter is registered as Int8, while GetValue for Int64 demands BigInt | RegisterOutParameter with TypeCode.Int64, filled by a command, read with GetLong | register Int64 outputs as BigInt, as the input setter does | not executed | DB2Parameters.LongOutputNeverReads | DB2Parameters.RegisterOutParameterIntended |
| AdoOracle/DataBase/OracleParametersExtensions.cs:497-505 | GetValue builds its DataException and ArgumentException messages by passing an interpolated string holding the key to `string.Format`, so a string key with an undoubled brace raises FormatException instead | GetValue on a wrapper without the string key `a{b` | pass the interpolated message as it is | not executed | OracleParameters.BraceInKeyBreaksGetValue | OracleParameters.GetValueIntended |
| AdoDB2/Support/DB2ParametersExtensions.cs:400-410 | the same `string.Format` over the key in both messages | GetValue on a wrapper without the string key `a{b` | pass the interpolated message as it is | not executed | DB2Parameters.BraceInKeyBreaksGetValue | DB2Parameters.GetValueIntended |
| AdoOracle/Support/OracleSQLBuilder.cs:80 | the interpolated statement is passed to `string.Format` as a format string, so a brace in a table name, column or value raises FormatException | BuildDelete with the WHERE entry column `=` `'{0}'` | return the interpolated statement as it is | not executed | SqlBuilder.BraceInValueBreaksDelete | SqlBuilder.BuildDeleteIntended |

One point where the code and its documentation disagree, followed here as coded: the class comment of `GenericParametersWrapper` says `int` keys bind in key order. The loop binds in the KeyedList's positional order, which is insertion order (`Parameters.IntKeysBindInInsertionOrder`).
