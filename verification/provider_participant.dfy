/**
  GenericDataAccessProviderTP<DbCon, DbTrx>: the generic provider as a
  transaction participant.  Prepare opens the connection and begins a
  ReadCommitted transaction, Commit and Rollback delegate to the provider,
  and each of the three reports every failure as a TransactionException.
  Abort and Clean dispose of the transaction without wrapping anything.
  CommitObserver subscriptions go to the provider's own event, which the
  provider raises before its commit.
 */
module ProviderParticipant {
  import opened Exceptions
  import opened DbProvider
  import Participants

  /** `Prepare()`: OpenConnection then BeginTransaction(); any exception is
      raised as a TransactionException. */
  function Prepare(p: Provider, d: Driver): (r: PStep)
    ensures r.outcome.Returned? || r.outcome == Raised(TransactionException)
    ensures r.outcome.Returned? ==>
              && r.p.connection.Some? && Usable(r.p.connection.value)
              && r.p.transaction == Some(Transaction(ReadCommitted))
              && r.calls != [] && r.calls[|r.calls| - 1] == TrxBegin(ReadCommitted)
    ensures TrxBegin(ReadCommitted) in r.calls ==> OpenConnection(p, d).outcome.Returned?
    ensures r.p.observers == p.observers && r.p.disposed == p.disposed
  {
    var o := OpenConnection(p, d);
    if o.outcome.Raised? then PStep(o.p, Raised(TransactionException), o.calls)
    else
      var b := BeginTransaction(o.p, ReadCommitted, d);
      PStep(b.p, b.outcome.WrappedAs(TransactionException), o.calls + b.calls)
  }

  /** `Commit()`: the provider's CommitTransaction, every exception raised
      as a TransactionException. */
  function Commit(p: Provider, d: Driver): (r: PStep)
    ensures r.outcome.Returned? || r.outcome == Raised(TransactionException)
    ensures r.outcome.Returned? ==> r.p == p.(transaction := None)
    ensures r.outcome.Raised? ==> r.p == p
    ensures r.outcome.Returned? <==> CommitTransaction(p, d).outcome.Returned?
  {
    var c := CommitTransaction(p, d);
    PStep(c.p, c.outcome.WrappedAs(TransactionException), c.calls)
  }

  /** `Rollback()`: the provider's RollbackTransaction, every exception
      raised as a TransactionException. */
  function Rollback(p: Provider, d: Driver): (r: PStep)
    ensures r.outcome.Returned? || r.outcome == Raised(TransactionException)
    ensures r.outcome.Returned? <==> p.transaction.Some? && d.rollback.Returned? && d.trxDispose.Returned?
    ensures r.outcome.Returned? ==> r.p == p.(transaction := None)
    ensures TrxCommit !in r.calls
  {
    var b := RollbackTransaction(p, d);
    PStep(b.p, b.outcome.WrappedAs(TransactionException), b.calls)
  }

  /** `Abort()`: disposes the transaction if there is one and forgets it;
      the transaction's Dispose exception propagates unwrapped. */
  function Abort(p: Provider, d: Driver): (r: PStep)
    ensures r.outcome.Returned? <==> p.transaction.None? || d.trxDispose.Returned?
    ensures r.outcome.Returned? ==> r.p == p.(transaction := None)
    ensures r.outcome.Raised? ==> r.p == p && r.outcome == d.trxDispose
    ensures r.calls == if p.transaction.Some? then [TrxDispose] else []
  {
    if p.transaction.None? then PStep(p.(transaction := None), Returned, [])
    else if d.trxDispose.Raised? then PStep(p, d.trxDispose, [TrxDispose])
    else PStep(p.(transaction := None), Returned, [TrxDispose])
  }

  /** `Clean()`: Abort's work, then closes the connection, which must
      exist: without one the call raises NullReferenceException. */
  function Clean(p: Provider, d: Driver): (r: PStep)
    ensures r.outcome.Returned? <==>
              (p.transaction.None? || d.trxDispose.Returned?) && p.connection.Some? && d.close.Returned?
    ensures r.outcome.Returned? ==>
              r.p == p.(transaction := None, connection := Some(p.connection.value.(state := Closed)))
    ensures (p.transaction.None? || d.trxDispose.Returned?) && p.connection.None? ==>
              r.outcome == Raised(NullReferenceException)
  {
    var a := Abort(p, d);
    if a.outcome.Raised? then a
    else if a.p.connection.None? then PStep(a.p, Raised(NullReferenceException), a.calls)
    else if d.close.Raised? then PStep(a.p, d.close, a.calls + [ConnClose])
    else PStep(a.p.(connection := Some(a.p.connection.value.(state := Closed))), Returned, a.calls + [ConnClose])
  }

  // ---------------------------------------------------------------------------
  // The participant as the transaction manager sees it
  // ---------------------------------------------------------------------------

  /** Prepare, Commit and Rollback keep the participant interface's
      contract whatever the driver does: they fail only with
      TransactionException. */
  lemma KeepsInterfaceContract(p: Provider, d: Driver)
    ensures Participants.Permitted(Participants.Prepare, Prepare(p, d).outcome)
    ensures Participants.Permitted(Participants.Commit, Commit(p, d).outcome)
    ensures Participants.Permitted(Participants.Rollback, Rollback(p, d).outcome)
  {
  }

  /** Abort does not: a failing transaction Dispose escapes as it is.  The
      transaction manager ignores Abort's exceptions, so this is harmless
      there. */
  lemma AbortMayBreakInterfaceContract(p: Provider, d: Driver)
    requires p.transaction.Some? && d.trxDispose == Raised(DriverException)
    ensures !Participants.Permitted(Participants.Abort, Abort(p, d).outcome)
  {
  }

  /** The provider raises CommitObserver before it commits: once the
      manager's handler `h` is subscribed, a commit that reaches the
      driver has notified `h` first.  This is the `BeforeCommit` notice
      of the manager model. */
  lemma CommitNotifiesBeforeCommitting(p: Provider, d: Driver, h: Handler)
    requires h in p.observers
    ensures var r := Commit(p, d);
      TrxCommit in r.calls ==>
        exists i, j :: 0 <= i < j < |r.calls| && r.calls[i] == Notify(h) && r.calls[j] == TrxCommit
  {
    var r := Commit(p, d);
    if TrxCommit in r.calls {
      var c := CommitTransaction(p, d);
      assert r.calls == c.calls;
      var i :| 0 <= i < |p.observers| && p.observers[i] == h;
      assert r.calls[i] == Notify(h);
    }
  }

  /** With subscribers that do not raise, a Commit on a prepared
      participant notifies every subscriber, in order, commits and
      returns. */
  lemma CommitAfterPrepare(p: Provider, d: Driver, d2: Driver)
    requires Prepare(p, d).outcome.Returned?
    requires d2.commit.Returned? && d2.trxDispose.Returned? && d2.raising == {}
    ensures var q := Prepare(p, d).p;
      var r := Commit(q, d2);
      && r.outcome.Returned? && r.p.transaction.None?
      && r.calls == seq(|q.observers|, i requires 0 <= i < |q.observers| => Notify(q.observers[i])) + [TrxCommit, TrxDispose]
  {
    var q := Prepare(p, d).p;
    var (notified, o) := NotifyAll(q.observers, d2.raising);
    assert notified == seq(|q.observers|, i requires 0 <= i < |q.observers| => Notify(q.observers[i]));
  }
}
