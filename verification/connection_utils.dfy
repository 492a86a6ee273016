/**
  ConnectionUtils: best-effort disposal helpers that never raise, the
  "close unless a transaction is pending" rule, and the unique-result check
  used by the query helpers.
 */
module ConnectionUtils {
  import opened Exceptions
  import opened DbProvider

  /** The parts of an IDbCommand the disposal helpers touch. */
  datatype Command = Command(parameters: seq<string>, disposed: bool)

  /** How one command answers `Parameters.Clear()` and `Dispose()`. */
  datatype CommandDriver = CommandDriver(clear: Outcome, dispose: Outcome)

  /** The four command slots of an IDbDataAdapter, in the order they are
      disposed. */
  datatype Slot = Select | Insert | Update | Delete

  datatype Adapter = Adapter(select: Option<Command>, insert: Option<Command>,
                             update: Option<Command>, delete: Option<Command>)
  {
    function At(s: Slot): Option<Command> {
      match s
      case Select => select
      case Insert => insert
      case Update => update
      case Delete => delete
    }
  }

  /** The private DoDisposeCommand: clears the parameters, then disposes;
      an exception ends the work and is swallowed. */
  function DoDisposeCommand(c: Command, d: CommandDriver): (r: Command)
    ensures d.clear.Returned? && d.dispose.Returned? ==> r.parameters == [] && r.disposed
    ensures d.clear.Raised? ==> r == c
    ensures r.disposed <==> c.disposed || (d.clear.Returned? && d.dispose.Returned?)
  {
    if d.clear.Raised? then c
    else if d.dispose.Raised? then c.(parameters := [])
    else Command([], true)
  }

  /** `DisposeCommand(command)`: does nothing for null. */
  function DisposeCommand(c: Option<Command>, d: CommandDriver): (r: Option<Command>)
    ensures r.None? <==> c.None?
    ensures c.Some? && d.clear.Returned? && d.dispose.Returned? ==> r == Some(Command([], true))
  {
    match c
    case None => None
    case Some(cmd) => Some(DoDisposeCommand(cmd, d))
  }

  /** `DisposeDataAdapterCommands(adapter)`: disposes every command the
      adapter holds; null slots and a null adapter are skipped.  `d` gives
      each slot's command behaviour. */
  function DisposeDataAdapterCommands(a: Option<Adapter>, d: Slot -> CommandDriver): (r: Option<Adapter>)
    ensures r.None? <==> a.None?
    ensures a.Some? ==> forall s: Slot :: r.value.At(s) == DisposeCommand(a.value.At(s), d(s))
    ensures a.Some? ==> forall s: Slot ::
              && (r.value.At(s).None? <==> a.value.At(s).None?)
              && (a.value.At(s).Some? && d(s).clear.Returned? && d(s).dispose.Returned? ==>
                    r.value.At(s) == Some(Command([], true)))
  {
    match a
    case None => None
    case Some(ad) =>
      Some(Adapter(DisposeCommand(ad.select, d(Select)), DisposeCommand(ad.insert, d(Insert)),
                   DisposeCommand(ad.update, d(Update)), DisposeCommand(ad.delete, d(Delete))))
  }

  /** Disposing a command a second time, with the driver answering as
      before, changes nothing more: a failed clear leaves the command as
      it was, and a cleared command stays cleared. */
  lemma DisposeCommandTwice(c: Option<Command>, d: CommandDriver)
    ensures DisposeCommand(DisposeCommand(c, d), d) == DisposeCommand(c, d)
  {
  }

  /** Disposing an adapter's commands twice is disposing them once. */
  lemma DisposeDataAdapterCommandsTwice(a: Option<Adapter>, d: Slot -> CommandDriver)
    ensures DisposeDataAdapterCommands(DisposeDataAdapterCommands(a, d), d) == DisposeDataAdapterCommands(a, d)
  {
    if a.Some? {
      var once := DisposeDataAdapterCommands(a, d).value;
      forall s: Slot
        ensures DisposeCommand(once.At(s), d(s)) == once.At(s)
      {
        DisposeCommandTwice(a.value.At(s), d(s));
      }
    }
  }

  /** `ClosseConnection(dbProvider)`: closes the provider's connection only
      when no transaction is pending; every exception is swallowed. */
  function CloseUnlessInTransaction(p: Provider, d: Driver): (r: PStep)
    ensures r.outcome.Returned?
    ensures p.transaction.Some? ==> r.p == p && r.calls == []
    ensures p.transaction.None? && p.connection.Some? ==>
              r.calls == [ConnClose] &&
              (d.close.Returned? ==> r.p.connection == Some(p.connection.value.(state := Closed)))
    ensures r.p.transaction == p.transaction
  {
    if p.transaction.Some? then PStep(p, Returned, [])
    else
      var c := CloseConnection(p, d);
      PStep(c.p, Returned, c.calls)
  }

  /** Outside a transaction the helper is the provider's CloseConnection
      with its exception swallowed: the same calls and the same provider
      state, whatever the driver does. */
  lemma CloseUnlessInTransactionSwallowsClose(p: Provider, d: Driver)
    requires p.transaction.None?
    ensures var r, c := CloseUnlessInTransaction(p, d), CloseConnection(p, d);
      r.p == c.p && r.calls == c.calls && r.outcome.Returned?
  {
  }

  /** `RequiredUniqueResultSet(results)`: the one element of a one-element
      list, `default(T)` (`dflt`) for a null or empty list, a
      ConstraintException for more than one element. */
  function RequiredUniqueResultSet<T>(results: Option<seq<T>>, dflt: T): (r: Result<T>)
    ensures r.Failure? <==> results.Some? && |results.value| > 1
    ensures r.Failure? ==> r.error == ConstraintException
    ensures r.Success? ==> (r.value == dflt || (results.Some? && r.value in results.value))
    ensures results.Some? && |results.value| == 1 ==> r == Success(results.value[0])
    ensures results.None? || results.value == [] ==> r == Success(dflt)
  {
    var size := if results.Some? then |results.value| else 0;
    if size == 0 then Success(dflt)
    else if size > 1 then Failure(ConstraintException)
    else Success(results.value[0])
  }

  /** A successful unique-result check on a list gives back the list. */
  lemma UniqueResultRoundTrip<T>(results: seq<T>, dflt: T)
    requires RequiredUniqueResultSet(Some(results), dflt).Success? && results != []
    ensures [RequiredUniqueResultSet(Some(results), dflt).value] == results
  {
  }
}
