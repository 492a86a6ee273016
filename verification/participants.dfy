/**
  The participant capability that the transaction manager drives
  (ITransactionParticipant): Prepare, Abort, Commit, Rollback, Clean and the
  CommitObserver event.  A participant is abstract here: during one manager
  operation it answers each kind of call with an outcome chosen freely, and it
  may raise CommitObserver before its commit, after a successful commit, or not
  at all.  Calls are recorded in order so that ordering, at-most-once and
  "no participant call" claims can be stated about them.
 */
module Participants {
  import opened Exceptions

  /** The two roles of a scope. */
  datatype Side = Inner | Outer

  /** The calls a manager makes on a participant (`Subscribe` is the
      `CommitObserver +=` made once at construction). */
  datatype Op = Subscribe | Prepare | Abort | Commit | Rollback | Clean

  datatype Call = Call(side: Side, op: Op)

  /** When a participant raises CommitObserver relative to its commit. */
  datatype Notice = Silent | BeforeCommit | AfterCommit

  /** How one participant answers the calls made on it during one manager
      operation.  Within one manager operation each kind of call is made at
      most once on each participant (see `Distinct` in the manager's
      contracts), so one outcome per kind is as general as one per call. */
  datatype Behaviour = Behaviour(
    prepare: Outcome,
    abort: Outcome,
    commit: Outcome,
    rollback: Outcome,
    clean: Outcome,
    notice: Notice)

  /** Both participants' behaviour during one manager operation. */
  datatype Env = Env(inner: Behaviour, outer: Behaviour) {
    function Of(side: Side): Behaviour {
      if side.Inner? then inner else outer
    }
  }

  /** The interface's documented contract for one call: Prepare, Abort,
      Commit and Rollback fail only with TransactionException; Clean and the
      subscription carry no such promise. */
  predicate Permitted(op: Op, o: Outcome) {
    match op
    case Prepare | Abort | Commit | Rollback =>
      o.Returned? || o.Throws(TransactionException)
    case Subscribe | Clean => true
  }

  /** A participant that keeps the interface's contract. */
  predicate Honours(b: Behaviour) {
    && Permitted(Prepare, b.prepare)
    && Permitted(Abort, b.abort)
    && Permitted(Commit, b.commit)
    && Permitted(Rollback, b.rollback)
  }

  /** No call is made twice. */
  predicate Distinct(calls: seq<Call>) {
    forall i, j :: 0 <= i < j < |calls| ==> calls[i] != calls[j]
  }

  /** No call of kind `op` at all, on either side. */
  predicate NoneOf(calls: seq<Call>, op: Op) {
    forall i :: 0 <= i < |calls| ==> calls[i].op != op
  }

  /** Every call is of kind `op`. */
  predicate OnlyOf(calls: seq<Call>, op: Op) {
    forall i :: 0 <= i < |calls| ==> calls[i].op == op
  }

  /** `a` is made at some point strictly before `b`. */
  predicate Precedes(calls: seq<Call>, a: Call, b: Call) {
    exists i, j :: 0 <= i < j < |calls| && calls[i] == a && calls[j] == b
  }
}
