/**
  GenericDbProvider<DbCon, DbTrx>: owns one ADO.NET connection and at most
  one transaction on it, opens the connection on demand, begins, commits and
  rolls back the transaction, raises CommitObserver before each commit and
  releases both on Dispose.

  The driver objects (the connection the subclass creates, the connection's
  Open/Close/BeginTransaction, the transaction's Commit/Rollback/Dispose)
  are abstract: a `Driver` gives the outcome of each kind of driver call
  during one provider operation, and every operation returns the calls it
  made, in order.  A successful Open leaves the connection Open, a
  successful Close leaves it Closed.
 */
module DbProvider {
  import opened Exceptions
  import opened Text

  /** System.Data.ConnectionState. */
  datatype ConnectionState = Closed | Open | Connecting | Executing | Fetching | Broken

  /** System.Data.IsolationLevel. */
  datatype IsolationLevel =
    Unspecified | Chaos | ReadUncommitted | ReadCommitted | RepeatableRead | Serializable | Snapshot

  /** The parts of a DbConnection the provider looks at. */
  datatype Connection = Connection(dataSource: string, connectionString: Option<string>, state: ConnectionState)

  /** A DbTransaction, known by the isolation level it was begun with. */
  datatype Transaction = Transaction(level: IsolationLevel)

  /** A subscriber of CommitObserver. */
  type Handler = nat

  /** The provider's fields; `observers` is CommitObserver's invocation
      list, in subscription order. */
  datatype Provider = Provider(
    connectionString: Option<string>,
    connection: Option<Connection>,
    transaction: Option<Transaction>,
    observers: seq<Handler>,
    disposed: bool)

  /** The calls a provider makes on its driver objects and subscribers. */
  datatype DriverCall =
    | ConnCreate
    | ConnSetString
    | ConnOpen
    | ConnClose
    | ConnDispose
    | TrxBegin(level: IsolationLevel)
    | TrxCommit
    | TrxRollback
    | TrxDispose
    | Notify(handler: Handler)

  /** How the driver objects answer during one provider operation.
      `created` is what the subclass's CreateConnection returns (None for
      null); the subscribers in `raising` raise when notified. */
  datatype Driver = Driver(
    create: Outcome,
    created: Option<Connection>,
    setString: Outcome,
    open: Outcome,
    close: Outcome,
    connDispose: Outcome,
    begin: Outcome,
    commit: Outcome,
    rollback: Outcome,
    trxDispose: Outcome,
    raising: set<Handler>)

  /** The result of one provider operation. */
  datatype PStep = PStep(p: Provider, outcome: Outcome, calls: seq<DriverCall>)

  /** A connection that Open has brought up or that is busy: the states
      OpenConnection leaves alone. */
  predicate Usable(c: Connection) {
    c.state != Closed && c.state != Broken
  }

  // ---------------------------------------------------------------------------
  // Construction
  // ---------------------------------------------------------------------------

  /** `GenericDbProvider(string connectionString)`: no connection yet. */
  function FromConnectionString(connectionString: Option<string>): (r: Result<Provider>)
    ensures connectionString.None? <==> r == Failure(ArgumentNullException)
    ensures r.Success? ==>
              && r.value.connectionString == connectionString
              && r.value.connection.None? && r.value.transaction.None?
              && r.value.observers == [] && !r.value.disposed
  {
    if connectionString.None? then Failure(ArgumentNullException)
    else Success(Provider(connectionString, None, None, [], false))
  }

  /** `GenericDbProvider(DbCon connection)`: adopts an existing connection;
      the connection string stays null. */
  function FromConnection(connection: Option<Connection>): (r: Result<Provider>)
    ensures connection.None? <==> r == Failure(ArgumentNullException)
    ensures r.Success? ==>
              && r.value.connection == connection && r.value.connectionString.None?
              && r.value.transaction.None? && r.value.observers == [] && !r.value.disposed
  {
    if connection.None? then Failure(ArgumentNullException)
    else Success(Provider(None, connection, None, [], false))
  }

  // ---------------------------------------------------------------------------
  // CommitObserver subscription
  // ---------------------------------------------------------------------------

  /** `CommitObserver += h`: appended to the invocation list. */
  function Subscribe(p: Provider, h: Handler): (r: Provider)
    ensures r.observers == p.observers + [h]
    ensures r.(observers := p.observers) == p
  {
    p.(observers := p.observers + [h])
  }

  /** The list without the last occurrence of `h`; unchanged if `h` does
      not occur (delegate removal takes the last occurrence and keeps the
      order of the rest, RemoveLastPosition). */
  function RemoveLast(hs: seq<Handler>, h: Handler): (r: seq<Handler>)
    ensures h !in hs ==> r == hs
    ensures h in hs ==> |r| == |hs| - 1 && multiset(r) == multiset(hs) - multiset{h}
    decreases |hs|
  {
    if |hs| == 0 then []
    else
      var init, last := hs[..|hs| - 1], hs[|hs| - 1];
      assert hs == init + [last];
      if last == h then init
      else RemoveLast(init, h) + [last]
  }

  /** The position of the last occurrence of `h`. */
  function LastIndexOf(hs: seq<Handler>, h: Handler): (i: nat)
    requires h in hs
    ensures i < |hs| && hs[i] == h && h !in hs[i + 1..]
  {
    if hs[|hs| - 1] == h then |hs| - 1
    else
      assert h in hs[..|hs| - 1] by {
        assert hs == hs[..|hs| - 1] + [hs[|hs| - 1]];
      }
      var i := LastIndexOf(hs[..|hs| - 1], h);
      assert hs[i + 1..] == hs[..|hs| - 1][i + 1..] + [hs[|hs| - 1]];
      i
  }

  /** RemoveLast drops the occurrence at the last position holding `h`;
      the handlers before and after it stay in order. */
  lemma {:induction false} RemoveLastAt(hs: seq<Handler>, h: Handler, i: nat)
    requires i < |hs| && hs[i] == h && h !in hs[i + 1..]
    ensures RemoveLast(hs, h) == hs[..i] + hs[i + 1..]
    decreases |hs|
  {
    var init, last := hs[..|hs| - 1], hs[|hs| - 1];
    if i < |hs| - 1 {
      assert last in hs[i + 1..];
      assert init[i + 1..] == hs[i + 1..|hs| - 1];
      RemoveLastAt(init, h, i);
      assert hs[..i] == init[..i];
      assert hs[i + 1..] == init[i + 1..] + [last];
    }
  }

  /** `CommitObserver -= h`: the last occurrence of `h` leaves the
      invocation list, and the other handlers keep their order. */
  function Unsubscribe(p: Provider, h: Handler): (r: Provider)
    ensures r.(observers := p.observers) == p
    ensures h !in p.observers ==> r == p
    ensures h in p.observers ==> multiset(r.observers) == multiset(p.observers) - multiset{h}
    ensures h in p.observers ==>
              var i := LastIndexOf(p.observers, h);
              r.observers == p.observers[..i] + p.observers[i + 1..]
  {
    if h in p.observers then
      RemoveLastAt(p.observers, h, LastIndexOf(p.observers, h));
      p.(observers := RemoveLast(p.observers, h))
    else p.(observers := RemoveLast(p.observers, h))
  }

  /** Unsubscribing undoes subscribing. */
  lemma SubscribeRoundTrip(p: Provider, h: Handler)
    ensures Unsubscribe(Subscribe(p, h), h) == p
  {
    assert (p.observers + [h])[..|p.observers|] == p.observers;
  }

  // ---------------------------------------------------------------------------
  // Opening and closing the connection
  // ---------------------------------------------------------------------------

  /** The private OpenConnectionInternal: a missing connection raises
      DataException; a Broken one is closed and reopened, a Closed one is
      opened, any other state is left as it is.  Driver exceptions
      propagate. */
  function OpenInternal(p: Provider, d: Driver): (r: PStep)
    ensures p.connection.None? ==> r == PStep(p, Raised(DataException), [])
    ensures r.outcome.Returned? <==> r.p.connection.Some? && Usable(r.p.connection.value)
    ensures r.p.(connection := p.connection) == p
    ensures p.connection.Some? ==>
              && r.p.connection.Some?
              && r.p.connection.value.(state := p.connection.value.state) == p.connection.value
    ensures p.connection.Some? && Usable(p.connection.value) ==> r == PStep(p, Returned, [])
    ensures r.outcome.Raised? && p.connection.Some? ==>
              r.outcome == (if p.connection.value.state == Broken && d.close.Raised? then d.close else d.open)
  {
    match p.connection
    case None => PStep(p, Raised(DataException), [])
    case Some(c) =>
      if c.state == Broken then
        if d.close.Raised? then PStep(p, d.close, [ConnClose])
        else
          var closed := c.(state := Closed);
          if d.open.Raised? then PStep(p.(connection := Some(closed)), d.open, [ConnClose, ConnOpen])
          else PStep(p.(connection := Some(closed.(state := Open))), Returned, [ConnClose, ConnOpen])
      else if c.state == Closed then
        if d.open.Raised? then PStep(p, d.open, [ConnOpen])
        else PStep(p.(connection := Some(c.(state := Open))), Returned, [ConnOpen])
      else PStep(p, Returned, [])
  }

  /** `OpenConnection()`: reuses the connection when there is one whose
      DataSource is not blank; otherwise creates a connection, gives it the
      provider's connection string and opens it.  Every exception becomes a
      DataException. */
  function OpenConnection(p: Provider, d: Driver): (r: PStep)
    ensures r.outcome.Returned? || r.outcome == Raised(DataException)
    ensures r.outcome.Returned? ==> r.p.connection.Some? && Usable(r.p.connection.value)
    ensures r.p.transaction == p.transaction && r.p.observers == p.observers
    ensures r.p.connectionString == p.connectionString && r.p.disposed == p.disposed
    ensures p.connection.Some? && !Blank(p.connection.value.dataSource) ==>
              && ConnCreate !in r.calls
              && r.p.connection.Some?
              && r.p.connection.value.(state := p.connection.value.state) == p.connection.value
    ensures p.connection.None? || Blank(p.connection.value.dataSource) ==>
              && |r.calls| >= 1 && r.calls[0] == ConnCreate
              && (r.outcome.Returned? ==>
                    && d.created.Some?
                    && r.p.connection.value.dataSource == d.created.value.dataSource
                    && r.p.connection.value.connectionString == p.connectionString)
  {
    var s :=
      if p.connection.Some? && !Blank(p.connection.value.dataSource) then OpenInternal(p, d)
      else if d.create.Raised? then PStep(p, d.create, [ConnCreate])
      else
        var p1 := p.(connection := d.created);
        if d.created.None? then PStep(p1, Raised(NullReferenceException), [ConnCreate])
        else if d.setString.Raised? then PStep(p1, d.setString, [ConnCreate, ConnSetString])
        else
          var p2 := p1.(connection := Some(d.created.value.(connectionString := p.connectionString)));
          var o := OpenInternal(p2, d);
          PStep(o.p, o.outcome, [ConnCreate, ConnSetString] + o.calls);
    PStep(s.p, s.outcome.WrappedAs(DataException), s.calls)
  }

  /** `CloseConnection()`: closes the connection if there is one; the
      driver's exception propagates. */
  function CloseConnection(p: Provider, d: Driver): (r: PStep)
    ensures p.connection.None? ==> r == PStep(p, Returned, [])
    ensures p.connection.Some? ==> r.calls == [ConnClose] && r.outcome == d.close
    ensures r.outcome.Returned? && p.connection.Some? ==>
              r.p.connection == Some(p.connection.value.(state := Closed))
    ensures r.p.(connection := p.connection) == p
  {
    match p.connection
    case None => PStep(p, Returned, [])
    case Some(c) =>
      if d.close.Raised? then PStep(p, d.close, [ConnClose])
      else PStep(p.(connection := Some(c.(state := Closed))), Returned, [ConnClose])
  }

  // ---------------------------------------------------------------------------
  // Transactions
  // ---------------------------------------------------------------------------

  /** `BeginTransaction(il)`: needs a connection; any failure is raised as a
      TransactionException and leaves the previous transaction field. */
  function BeginTransaction(p: Provider, level: IsolationLevel, d: Driver): (r: PStep)
    ensures r.outcome.Returned? || r.outcome == Raised(TransactionException)
    ensures r.outcome.Returned? <==> p.connection.Some? && d.begin.Returned?
    ensures r.outcome.Returned? ==> r.p == p.(transaction := Some(Transaction(level)))
    ensures r.outcome.Raised? ==> r.p == p
    ensures r.calls == if p.connection.Some? then [TrxBegin(level)] else []
  {
    if p.connection.None? then PStep(p, Raised(TransactionException), [])
    else if d.begin.Raised? then PStep(p, Raised(TransactionException), [TrxBegin(level)])
    else PStep(p.(transaction := Some(Transaction(level))), Returned, [TrxBegin(level)])
  }

  /** `BeginTransaction()`: at ReadCommitted. */
  function BeginDefaultTransaction(p: Provider, d: Driver): (r: PStep)
    ensures r.outcome.Returned? ==> r.p.transaction == Some(Transaction(ReadCommitted))
  {
    BeginTransaction(p, ReadCommitted, d)
  }

  /** Raising CommitObserver: each subscriber in order, until one raises;
      that exception propagates. */
  function NotifyAll(hs: seq<Handler>, raising: set<Handler>): (r: (seq<DriverCall>, Outcome))
    ensures |r.0| <= |hs|
    ensures forall i :: 0 <= i < |r.0| ==> r.0[i] == Notify(hs[i])
    ensures r.1.Returned? <==> forall i :: 0 <= i < |hs| ==> hs[i] !in raising
    ensures r.1.Returned? ==> |r.0| == |hs|
    ensures r.1.Raised? ==>
              && r.1 == Raised(DriverException) && |r.0| >= 1
              && hs[|r.0| - 1] in raising
              && forall i :: 0 <= i < |r.0| - 1 ==> hs[i] !in raising
  {
    if |hs| == 0 then ([], Returned)
    else if hs[0] in raising then ([Notify(hs[0])], Raised(DriverException))
    else
      var rest := NotifyAll(hs[1..], raising);
      assert forall i :: 1 <= i < |hs| ==> hs[i] == hs[1..][i - 1];
      ([Notify(hs[0])] + rest.0, rest.1)
  }

  /** `CommitTransaction()`: raises CommitObserver, then commits and
      disposes the transaction and forgets it.  With no transaction the
      call on it raises NullReferenceException; nothing here is wrapped. */
  function CommitTransaction(p: Provider, d: Driver): (r: PStep)
    ensures r.p.(transaction := p.transaction) == p
    ensures r.outcome.Returned? <==>
              && (forall i :: 0 <= i < |p.observers| ==> p.observers[i] !in d.raising)
              && p.transaction.Some? && d.commit.Returned? && d.trxDispose.Returned?
    ensures r.outcome.Returned? ==> r.p.transaction.None?
    ensures r.outcome.Raised? ==> r.p == p
    ensures TrxCommit in r.calls ==>
              && p.transaction.Some?
              && |r.calls| > |p.observers| && r.calls[|p.observers|] == TrxCommit
              && forall i :: 0 <= i < |p.observers| ==> r.calls[i] == Notify(p.observers[i])
  {
    var (notified, o) := NotifyAll(p.observers, d.raising);
    if o.Raised? then PStep(p, o, notified)
    else if p.transaction.None? then PStep(p, Raised(NullReferenceException), notified)
    else if d.commit.Raised? then PStep(p, d.commit, notified + [TrxCommit])
    else if d.trxDispose.Raised? then PStep(p, d.trxDispose, notified + [TrxCommit, TrxDispose])
    else PStep(p.(transaction := None), Returned, notified + [TrxCommit, TrxDispose])
  }

  /** `RollbackTransaction()`: rolls back, disposes and forgets the
      transaction; nothing is wrapped. */
  function RollbackTransaction(p: Provider, d: Driver): (r: PStep)
    ensures p.transaction.None? ==> r == PStep(p, Raised(NullReferenceException), [])
    ensures r.outcome.Returned? <==> p.transaction.Some? && d.rollback.Returned? && d.trxDispose.Returned?
    ensures r.outcome.Returned? ==> r.p == p.(transaction := None)
    ensures r.outcome.Raised? ==> r.p == p
    ensures p.transaction.Some? ==> |r.calls| >= 1 && r.calls[0] == TrxRollback && TrxCommit !in r.calls
  {
    if p.transaction.None? then PStep(p, Raised(NullReferenceException), [])
    else if d.rollback.Raised? then PStep(p, d.rollback, [TrxRollback])
    else if d.trxDispose.Raised? then PStep(p, d.trxDispose, [TrxRollback, TrxDispose])
    else PStep(p.(transaction := None), Returned, [TrxRollback, TrxDispose])
  }

  // ---------------------------------------------------------------------------
  // Dispose
  // ---------------------------------------------------------------------------

  /** Releasing the connection: Close, Dispose, forget; stops at the first
      driver exception. */
  function ReleaseConnection(p: Provider, d: Driver): (r: PStep)
    ensures r.p.(connection := p.connection) == p
    ensures r.outcome.Returned? ==> r.p.connection.None?
    ensures p.connection.None? ==> r == PStep(p, Returned, [])
  {
    if p.connection.None? then PStep(p, Returned, [])
    else if d.close.Raised? then PStep(p, d.close, [ConnClose])
    else if d.connDispose.Raised? then
      PStep(p.(connection := Some(p.connection.value.(state := Closed))), d.connDispose, [ConnClose, ConnDispose])
    else PStep(p.(connection := None), Returned, [ConnClose, ConnDispose])
  }

  /** `Dispose()`: once, rolls back and disposes a pending transaction, then
      closes and disposes the connection; the first driver exception ends
      that work and is swallowed; the provider is marked disposed in any
      case. */
  function Dispose(p: Provider, d: Driver): (r: PStep)
    ensures r.outcome.Returned? && r.p.disposed
    ensures p.disposed ==> r == PStep(p, Returned, [])
    ensures TrxCommit !in r.calls
    ensures r.p.observers == p.observers && r.p.connectionString == p.connectionString
    ensures !p.disposed && d.rollback.Returned? && d.trxDispose.Returned? &&
            d.close.Returned? && d.connDispose.Returned? ==>
              r.p.transaction.None? && r.p.connection.None?
    ensures !p.disposed && p.transaction.Some? ==> |r.calls| >= 1 && r.calls[0] == TrxRollback
  {
    if p.disposed then PStep(p, Returned, [])
    else
      var t :=
        if p.transaction.None? then PStep(p, Returned, [])
        else if d.rollback.Raised? then PStep(p, d.rollback, [TrxRollback])
        else if d.trxDispose.Raised? then PStep(p, d.trxDispose, [TrxRollback, TrxDispose])
        else PStep(p.(transaction := None), Returned, [TrxRollback, TrxDispose]);
      var c := if t.outcome.Raised? then PStep(t.p, Returned, []) else ReleaseConnection(t.p, d);
      PStep(c.p.(disposed := true), Returned, t.calls + c.calls)
  }

  /** Dispose is idempotent: a second Dispose makes no call and changes
      nothing. */
  lemma DisposeTwice(p: Provider, d1: Driver, d2: Driver)
    ensures var q := Dispose(p, d1).p; Dispose(q, d2) == PStep(q, Returned, [])
  {
  }

  /** A pending transaction is rolled back before the connection is closed. */
  lemma DisposeRollsBackBeforeClosing(p: Provider, d: Driver)
    requires !p.disposed && p.transaction.Some? && p.connection.Some?
    requires d.rollback.Returned? && d.trxDispose.Returned?
    ensures Dispose(p, d).calls[..3] == [TrxRollback, TrxDispose, ConnClose]
  {
    var r := Dispose(p, d);
    var c := ReleaseConnection(p.(transaction := None), d);
    assert r.calls == [TrxRollback, TrxDispose] + c.calls;
    assert c.calls[0] == ConnClose;
  }
}
