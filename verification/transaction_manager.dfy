/**
  TransactionManager<TOuter, TInner>: a best-effort coordinator of two
  nested transactions.  The Outer participant is prepared first and committed
  last; the Inner participant is prepared second and committed first.

  Every operation is a pure function from the manager's flags and the two
  participants' behaviour during that operation (`Env`) to a `Step`: the new
  flags, how the operation ended, and the participant calls it made, in order.
  The operations follow the source as written, including two behaviours that
  the doc comments do not suggest:
  - `Complete` sets `complete` before committing, so when the joint commit
    fails the following `Rollback` finds the scope complete and does nothing;
  - the side flags are set only by `CommitHandler` (a participant's
    CommitObserver) and by `RollbackInner`/`RollbackOuter`, never by the
    commit operations themselves.
  The timer thread and the rollback lock are not modelled: `Timeout` is an
  ordinary operation and `Rollback` is atomic.
 */
module TransactionManager {
  import opened Exceptions
  import opened Participants

  /** The manager's state; the two participants are fixed for its lifetime. */
  datatype Manager = Manager(
    complete: bool,
    innerComplete: bool,
    outerComplete: bool,
    timedOut: bool,
    disposed: bool,
    scopeTimeout: int,
    timerArmed: bool)
  {
    function SideComplete(side: Side): bool {
      if side.Inner? then innerComplete else outerComplete
    }

    function MarkSide(side: Side): Manager {
      if side.Inner? then this.(innerComplete := true) else this.(outerComplete := true)
    }

    /** `complete = innerComplete && outerComplete`, as every side-level
        operation recomputes it. */
    function Recomputed(): Manager {
      this.(complete := innerComplete && outerComplete)
    }
  }

  /** The result of one manager operation.  When `outcome` is raised by the
      constructor the object never reaches the caller. */
  datatype Step = Step(m: Manager, outcome: Outcome, calls: seq<Call>)

  /** The `sender` of a CommitObserver event. */
  datatype Sender = From(side: Side) | Stranger

  /** The state just before `Prepare` runs in the constructor. */
  const Initial := Manager(false, false, false, false, false, 0, false)

  /** The same flags with only `complete` possibly different. */
  predicate OnlyCompleteDiffers(a: Manager, b: Manager) {
    a.(complete := b.complete) == b
  }

  /** Exceptions that the manager's rollback code catches and ignores. */
  predicate Tolerated(o: Outcome) {
    o.Returned? || o.Throws(ObjectDisposedException) || o.Throws(TransactionException)
  }

  // ---------------------------------------------------------------------------
  // Construction and Prepare
  // ---------------------------------------------------------------------------

  /** Best-effort abort after a failed prepare: Inner.Abort then Outer.Abort
      inside one try block whose exceptions are ignored, so Outer.Abort is
      skipped when Inner.Abort raises; the prepare failure is then raised as
      a TransactionException. */
  function AbortBoth(m: Manager, env: Env, before: seq<Call>): (r: Step)
    ensures r.m == m && r.outcome == Raised(TransactionException)
    ensures |r.calls| >= |before| && r.calls[..|before|] == before
    ensures r.calls[|before|..] ==
              if env.inner.abort.Returned? then [Call(Inner, Op.Abort), Call(Outer, Op.Abort)]
              else [Call(Inner, Op.Abort)]
  {
    var aborts :=
      if env.inner.abort.Raised? then [Call(Inner, Op.Abort)]
      else [Call(Inner, Op.Abort), Call(Outer, Op.Abort)];
    Step(m, Raised(TransactionException), before + aborts)
  }

  /** Prepares Outer, then Inner only if Outer prepared.  A TransactionException
      from either leads to `AbortBoth`; any other exception propagates as it
      is, with no abort. */
  function Prepare(m: Manager, env: Env): (r: Step)
    ensures r.m == m
    ensures |r.calls| >= 1 && r.calls[0] == Call(Outer, Op.Prepare)
    ensures Call(Inner, Op.Prepare) in r.calls <==> env.outer.prepare.Returned?
    ensures r.outcome.Returned? <==> env.outer.prepare.Returned? && env.inner.prepare.Returned?
    ensures env.outer.prepare.Throws(TransactionException) ||
            (env.outer.prepare.Returned? && env.inner.prepare.Throws(TransactionException))
            ==> r.outcome == Raised(TransactionException) && Call(Inner, Op.Abort) in r.calls &&
                (Call(Outer, Op.Abort) in r.calls <==> env.inner.abort.Returned?)
    ensures r.outcome.Raised? && !r.outcome.Throws(TransactionException) ==>
              NoneOf(r.calls, Op.Abort) &&
              r.outcome == (if env.outer.prepare.Raised? then env.outer.prepare else env.inner.prepare)
  {
    var outerPrepare := env.outer.prepare;
    if outerPrepare.Raised? && !outerPrepare.Throws(TransactionException) then
      Step(m, outerPrepare, [Call(Outer, Op.Prepare)])
    else if outerPrepare.Raised? then
      AbortBoth(m, env, [Call(Outer, Op.Prepare)])
    else
      var innerPrepare := env.inner.prepare;
      var prepared := [Call(Outer, Op.Prepare), Call(Inner, Op.Prepare)];
      if innerPrepare.Raised? && !innerPrepare.Throws(TransactionException) then
        Step(m, innerPrepare, prepared)
      else if innerPrepare.Raised? then
        AbortBoth(m, env, prepared)
      else
        Step(m, Returned, prepared)
  }

  /** The constructor `TransactionManager(outer, inner, scopeTimeout)`:
      `outerGiven`/`innerGiven` say whether the references are non-null.
      It subscribes `CommitHandler` to both participants, prepares them and,
      for a non-zero timeout, arms the scope timer. */
  function Create(outerGiven: bool, innerGiven: bool, scopeTimeout: int, env: Env): (r: Step)
    ensures !outerGiven || !innerGiven ==>
              r.outcome == Raised(ArgumentNullException) && r.calls == []
    ensures outerGiven && innerGiven ==>
              && |r.calls| >= 3
              && r.calls[..2] == [Call(Inner, Op.Subscribe), Call(Outer, Op.Subscribe)]
              && r.calls[2] == Call(Outer, Op.Prepare)
              && (r.outcome.Returned? <==> env.outer.prepare.Returned? && env.inner.prepare.Returned?)
    ensures r.outcome.Returned? ==>
              && r.m.scopeTimeout == scopeTimeout
              && (r.m.timerArmed <==> scopeTimeout != 0)
              && !r.m.complete && !r.m.innerComplete && !r.m.outerComplete
              && !r.m.timedOut && !r.m.disposed
  {
    if !outerGiven || !innerGiven then
      Step(Initial, Raised(ArgumentNullException), [])
    else
      var subscribed := [Call(Inner, Op.Subscribe), Call(Outer, Op.Subscribe)];
      var p := Prepare(Initial, env);
      var calls := subscribed + p.calls;
      assert calls[..2] == subscribed;
      if p.outcome.Raised? then
        Step(Initial, p.outcome, calls)
      else
        Step(Initial.(scopeTimeout := scopeTimeout, timerArmed := scopeTimeout != 0), Returned, calls)
  }

  // ---------------------------------------------------------------------------
  // Commit notification and the participant commit call
  // ---------------------------------------------------------------------------

  /** CommitHandler: marks the sender's side complete and recomputes the
      joint flag; an event from any other sender changes nothing. */
  function CommitHandler(m: Manager, sender: Sender): (r: Manager)
    ensures sender.Stranger? ==> r == m
    ensures sender.From? ==>
              && r.SideComplete(sender.side)
              && r.complete == (r.innerComplete && r.outerComplete)
              && r.(complete := m.complete).(innerComplete := m.innerComplete).(outerComplete := m.outerComplete) == m
    ensures sender.From? && sender.side.Inner? ==> r.outerComplete == m.outerComplete
    ensures sender.From? && sender.side.Outer? ==> r.innerComplete == m.innerComplete
  {
    match sender
    case From(side) => m.MarkSide(side).Recomputed()
    case Stranger => m
  }

  /** One participant's `Commit()`, with its CommitObserver raised into
      `CommitHandler` before the commit or after a successful one, as that
      participant does it. */
  function ParticipantCommit(m: Manager, side: Side, env: Env): (r: Step)
    ensures r.calls == [Call(side, Op.Commit)] && r.outcome == env.Of(side).commit
    ensures r.m.SideComplete(side) <==>
              m.SideComplete(side) || env.Of(side).notice == BeforeCommit ||
              (env.Of(side).notice == AfterCommit && env.Of(side).commit.Returned?)
    ensures r.m.SideComplete(if side.Inner? then Outer else Inner) ==
              m.SideComplete(if side.Inner? then Outer else Inner)
    ensures r.m.timedOut == m.timedOut && r.m.disposed == m.disposed
    ensures env.Of(side).notice == Silent ==> r.m == m
  {
    var b := env.Of(side);
    var m1 := if b.notice == BeforeCommit then CommitHandler(m, From(side)) else m;
    var m2 := if b.notice == AfterCommit && b.commit.Returned? then CommitHandler(m1, From(side)) else m1;
    Step(m2, b.commit, [Call(side, Op.Commit)])
  }

  // ---------------------------------------------------------------------------
  // Rollback
  // ---------------------------------------------------------------------------

  /** Rolls one participant back, ignoring ObjectDisposedException and
      TransactionException; any other exception propagates. */
  function InternRollback(m: Manager, side: Side, env: Env): (r: Step)
    ensures r.m == m && r.calls == [Call(side, Op.Rollback)]
    ensures r.outcome.Returned? <==> Tolerated(env.Of(side).rollback)
    ensures r.outcome.Raised? ==> r.outcome == env.Of(side).rollback
  {
    var o := env.Of(side).rollback;
    Step(m, if Tolerated(o) then Returned else o, [Call(side, Op.Rollback)])
  }

  /** The internal full-scope Rollback: a no-op on a complete scope;
      otherwise rolls back each side not yet marked complete, Inner then
      Outer, and ends the scope. */
  function Rollback(m: Manager, env: Env): (r: Step)
    ensures m.complete ==> r == Step(m, Returned, [])
    ensures OnlyCompleteDiffers(m, r.m) && OnlyOf(r.calls, Op.Rollback) && Distinct(r.calls)
    ensures Call(Inner, Op.Rollback) in r.calls <==> !m.complete && !m.innerComplete
    ensures Call(Outer, Op.Rollback) in r.calls <==>
              !m.complete && !m.outerComplete && (m.innerComplete || Tolerated(env.inner.rollback))
    ensures |r.calls| == 2 ==> r.calls == [Call(Inner, Op.Rollback), Call(Outer, Op.Rollback)]
    ensures r.outcome.Returned? <==>
              m.complete ||
              ((m.innerComplete || Tolerated(env.inner.rollback)) &&
               (m.outerComplete || Tolerated(env.outer.rollback)))
    ensures r.outcome.Returned? ==> r.m.complete
    ensures r.outcome.Raised? ==> r.m == m && !Tolerated(r.outcome)
  {
    if m.complete then Step(m, Returned, [])
    else
      var ri := if m.innerComplete then Step(m, Returned, []) else InternRollback(m, Inner, env);
      if ri.outcome.Raised? then ri
      else
        var ro := if m.outerComplete then Step(m, Returned, []) else InternRollback(m, Outer, env);
        if ro.outcome.Raised? then Step(m, ro.outcome, ri.calls + ro.calls)
        else Step(m.(complete := true), Returned, ri.calls + ro.calls)
  }

  /** RollbackInner / RollbackOuter: on an incomplete scope, rolls the side
      back once (marking it complete first) and recomputes the joint flag. */
  function RollbackSide(m: Manager, side: Side, env: Env): (r: Step)
    ensures m.complete ==> r == Step(m, Returned, [])
    ensures r.calls == (if !m.complete && !m.SideComplete(side) then [Call(side, Op.Rollback)] else [])
    ensures !m.complete ==> r.m.SideComplete(side)
    ensures r.m.SideComplete(if side.Inner? then Outer else Inner) ==
              m.SideComplete(if side.Inner? then Outer else Inner)
    ensures r.m.timedOut == m.timedOut && r.m.disposed == m.disposed
    ensures r.outcome.Returned? <==> m.complete || m.SideComplete(side) || Tolerated(env.Of(side).rollback)
    ensures !m.complete && r.outcome.Returned? ==> r.m.complete == (r.m.innerComplete && r.m.outerComplete)
  {
    if m.complete then Step(m, Returned, [])
    else if m.SideComplete(side) then Step(m.Recomputed(), Returned, [])
    else
      var marked := m.MarkSide(side);
      var rb := InternRollback(marked, side, env);
      if rb.outcome.Raised? then Step(marked, rb.outcome, rb.calls)
      else Step(marked.Recomputed(), Returned, rb.calls)
  }

  function RollbackInner(m: Manager, env: Env): (r: Step)
    ensures r.calls == (if !m.complete && !m.innerComplete then [Call(Inner, Op.Rollback)] else [])
    ensures m.complete ==> r == Step(m, Returned, [])
    ensures !m.complete ==> r.m.innerComplete && r.m.outerComplete == m.outerComplete
    ensures r.m.timedOut == m.timedOut && r.m.disposed == m.disposed
    ensures r.outcome.Returned? <==> m.complete || m.innerComplete || Tolerated(env.Of(Inner).rollback)
    ensures !m.complete && r.outcome.Returned? ==> r.m.complete == (r.m.innerComplete && r.m.outerComplete)
  {
    RollbackSide(m, Inner, env)
  }

  function RollbackOuter(m: Manager, env: Env): (r: Step)
    ensures r.calls == (if !m.complete && !m.outerComplete then [Call(Outer, Op.Rollback)] else [])
    ensures m.complete ==> r == Step(m, Returned, [])
    ensures !m.complete ==> r.m.outerComplete && r.m.innerComplete == m.innerComplete
    ensures r.m.timedOut == m.timedOut && r.m.disposed == m.disposed
    ensures r.outcome.Returned? <==> m.complete || m.outerComplete || Tolerated(env.Of(Outer).rollback)
    ensures !m.complete && r.outcome.Returned? ==> r.m.complete == (r.m.innerComplete && r.m.outerComplete)
  {
    RollbackSide(m, Outer, env)
  }

  /** The scope timer's expiry: the scope is marked timed out and, if it is
      not complete, rolled back. */
  function Timeout(m: Manager, env: Env): (r: Step)
    ensures r.m.timedOut
    ensures m.complete ==> r.calls == [] && r.m == m.(timedOut := true)
    ensures !m.complete ==>
              && (Call(Inner, Op.Rollback) in r.calls <==> !m.innerComplete)
              && (r.outcome.Returned? ==> r.m.complete)
    ensures OnlyOf(r.calls, Op.Rollback) && Distinct(r.calls)
  {
    var expired := m.(timedOut := true);
    if expired.complete then Step(expired, Returned, []) else Rollback(expired, env)
  }

  /** The scope timer's callback as written.  It casts its state object to
      the manager type with the type arguments swapped
      (`TransactionManager<TInner, TOuter>`); when the two participant types
      differ the cast yields null and the call on it raises
      NullReferenceException on the timer thread.  No caller of the
      manager sees that exception: unhandled on a thread-pool thread, it
      terminates the process, and the scope is never timed out.
      `Raised(NullReferenceException)` here records how the callback ends,
      not an exception a caller can catch.  `sameParticipantTypes` says
      whether TOuter and TInner are the same type. */
  function TimerCallback(m: Manager, env: Env, sameParticipantTypes: bool): (r: Step)
    ensures !sameParticipantTypes ==> r == Step(m, Raised(NullReferenceException), [])
    ensures sameParticipantTypes ==> r.m.timedOut
  {
    if sameParticipantTypes then Timeout(m, env) else Step(m, Raised(NullReferenceException), [])
  }

  /** The timer callback with the cast to the scope's own type: whatever the
      participant types, an expired scope is marked timed out and an
      incomplete one is rolled back on every side not yet finished. */
  function TimerCallbackIntended(m: Manager, env: Env): (r: Step)
    ensures r.m.timedOut && r.m.disposed == m.disposed
    ensures !m.complete ==>
              (Call(Inner, Op.Rollback) in r.calls <==> !m.innerComplete)
    ensures !m.complete && Honours(env.inner) && Honours(env.outer) ==>
              r.outcome.Returned? && r.m.complete &&
              (Call(Outer, Op.Rollback) in r.calls <==> !m.outerComplete)
  {
    Timeout(m, env)
  }

  // ---------------------------------------------------------------------------
  // Commit operations
  // ---------------------------------------------------------------------------

  /** After a TransactionException from a commit: `Rollback()`, then raise
      TransactionException (unless the rollback itself let an exception out). */
  function RollbackThenRaise(s: Step, env: Env): (r: Step)
    ensures |r.calls| >= |s.calls| && r.calls[..|s.calls|] == s.calls
    ensures r.outcome.Raised?
  {
    var rb := Rollback(s.m, env);
    Step(rb.m, if rb.outcome.Raised? then rb.outcome else Raised(TransactionException), s.calls + rb.calls)
  }

  /** CommitInner / CommitOuter.  Guards first (disposed, then complete or
      side complete, then timed out), with no participant call; then the
      participant's Commit, whose TransactionException leads to the full
      Rollback and a TransactionException.  The side flag is left to the
      participant's CommitObserver. */
  function CommitSide(m: Manager, side: Side, env: Env): (r: Step)
    ensures m.disposed ==> r == Step(m, Raised(ObjectDisposedException), [])
    ensures !m.disposed && (m.complete || m.SideComplete(side) || m.timedOut) ==>
              r == Step(m, Raised(InvalidOperationException), [])
    ensures r.calls != [] ==> r.calls[0] == Call(side, Op.Commit)
    ensures Call(if side.Inner? then Outer else Inner, Op.Commit) !in r.calls
    ensures env.Of(side).notice == Silent && r.outcome.Returned? ==> r.m == m
    ensures Call(side, Op.Rollback) in r.calls ==> env.Of(side).commit.Throws(TransactionException)
    ensures r.m.timedOut == m.timedOut && r.m.disposed == m.disposed
  {
    if m.disposed then Step(m, Raised(ObjectDisposedException), [])
    else if m.complete || m.SideComplete(side) then Step(m, Raised(InvalidOperationException), [])
    else if m.timedOut then Step(m, Raised(InvalidOperationException), [])
    else
      var c := ParticipantCommit(m, side, env);
      if c.outcome.Throws(TransactionException) then RollbackThenRaise(c, env) else c
  }

  function CommitInner(m: Manager, env: Env): (r: Step)
    ensures !m.disposed && (m.complete || m.innerComplete || m.timedOut) ==>
              r.outcome == Raised(InvalidOperationException) && r.calls == []
    ensures Call(Outer, Op.Commit) !in r.calls
  {
    CommitSide(m, Inner, env)
  }

  function CommitOuter(m: Manager, env: Env): (r: Step)
    ensures !m.disposed && (m.complete || m.outerComplete || m.timedOut) ==>
              r.outcome == Raised(InvalidOperationException) && r.calls == []
    ensures Call(Inner, Op.Commit) !in r.calls
  {
    CommitSide(m, Outer, env)
  }

  /** The private joint `commit()`: Inner.Commit, then Outer.Commit only if
      Inner committed; a TransactionException from either is re-raised as a
      TransactionException, other exceptions propagate; `complete` is set on
      success. */
  function JointCommit(m: Manager, env: Env): (r: Step)
    ensures 1 <= |r.calls| <= 2 && r.calls[0] == Call(Inner, Op.Commit)
    ensures |r.calls| == 2 <==> env.inner.commit.Returned?
    ensures |r.calls| == 2 ==> r.calls[1] == Call(Outer, Op.Commit)
    ensures r.outcome.Returned? <==> env.inner.commit.Returned? && env.outer.commit.Returned?
    ensures r.outcome.Returned? ==> r.m.complete
    ensures r.outcome.Raised? ==>
              r.outcome == (if env.inner.commit.Raised? then env.inner.commit else env.outer.commit)
    ensures r.m.timedOut == m.timedOut && r.m.disposed == m.disposed
  {
    var ci := ParticipantCommit(m, Inner, env);
    if ci.outcome.Raised? then ci
    else
      var co := ParticipantCommit(ci.m, Outer, env);
      if co.outcome.Raised? then Step(co.m, co.outcome, ci.calls + co.calls)
      else Step(co.m.(complete := true), Returned, ci.calls + co.calls)
  }

  /** `Complete()`, as written: guards; delegation to CommitOuter when Inner
      already finished, to CommitInner when Outer already finished; else a
      timed-out check, then `complete := true` BEFORE the joint commit, whose
      TransactionException leads to `Rollback()` and a TransactionException. */
  function Complete(m: Manager, env: Env): (r: Step)
    ensures m.disposed ==> r == Step(m, Raised(ObjectDisposedException), [])
    ensures !m.disposed && (m.complete || m.timedOut) ==>
              r == Step(m, Raised(InvalidOperationException), [])
    ensures !m.complete && m.innerComplete ==> Call(Inner, Op.Commit) !in r.calls
    ensures !m.complete && !m.innerComplete && m.outerComplete ==> Call(Outer, Op.Commit) !in r.calls
    ensures r.m.timedOut == m.timedOut && r.m.disposed == m.disposed
  {
    if m.disposed then Step(m, Raised(ObjectDisposedException), [])
    else if m.complete then Step(m, Raised(InvalidOperationException), [])
    else if m.innerComplete then CommitOuter(m, env)
    else if m.outerComplete then CommitInner(m, env)
    else if m.timedOut then Step(m, Raised(InvalidOperationException), [])
    else
      var j := JointCommit(m.(complete := true), env);
      if j.outcome.Throws(TransactionException) then RollbackThenRaise(j, env) else j
  }

  /** `Complete()` as its documentation and the joint-commit design intend:
      `complete` is set only by a successful joint commit, so a failed joint
      commit is followed by a `Rollback()` that really rolls back. */
  function CompleteIntended(m: Manager, env: Env): (r: Step)
    ensures m.disposed ==> r == Step(m, Raised(ObjectDisposedException), [])
    ensures !m.disposed && (m.complete || m.timedOut) ==>
              r == Step(m, Raised(InvalidOperationException), [])
    ensures !m.disposed && !m.complete && !m.innerComplete && !m.outerComplete && !m.timedOut &&
            Honours(env.inner) && Honours(env.outer) && r.outcome.Raised? ==>
              r.outcome == Raised(TransactionException) && r.m.complete
    ensures !m.disposed && !m.complete && !m.innerComplete && !m.outerComplete && !m.timedOut &&
            Honours(env.inner) && Honours(env.outer) && env.inner.notice != BeforeCommit &&
            env.inner.commit.Throws(TransactionException) ==>
              && Call(Outer, Op.Commit) !in r.calls
              && Call(Inner, Op.Rollback) in r.calls
              && Call(Outer, Op.Rollback) in r.calls
  {
    if m.disposed then Step(m, Raised(ObjectDisposedException), [])
    else if m.complete then Step(m, Raised(InvalidOperationException), [])
    else if m.innerComplete then CommitOuter(m, env)
    else if m.outerComplete then CommitInner(m, env)
    else if m.timedOut then Step(m, Raised(InvalidOperationException), [])
    else
      var j := JointCommit(m, env);
      if j.outcome.Throws(TransactionException) then RollbackThenRaise(j, env) else j
  }

  // ---------------------------------------------------------------------------
  // Dispose
  // ---------------------------------------------------------------------------

  /** `Dispose()`: once, roll back an incomplete scope, then Clean Inner and
      Outer, drop the timer and note the disposal; every exception is
      swallowed and `complete` is set in a finally block. */
  function Dispose(m: Manager, env: Env): (r: Step)
    ensures r.outcome == Returned && r.m.complete
    ensures m.disposed ==> r.calls == [] && r.m == m.(complete := true)
    ensures Call(Inner, Op.Rollback) in r.calls <==> !m.disposed && !m.complete && !m.innerComplete
    ensures !m.disposed && Rollback(m, env).outcome.Returned? ==>
              Call(Inner, Op.Clean) in r.calls &&
              (Call(Outer, Op.Clean) in r.calls <==> env.inner.clean.Returned?)
    ensures r.m.disposed <==>
              m.disposed ||
              (Rollback(m, env).outcome.Returned? && env.inner.clean.Returned? && env.outer.clean.Returned?)
    ensures r.m.disposed && !m.disposed ==> !r.m.timerArmed
  {
    if m.disposed then Step(m.(complete := true), Returned, [])
    else
      var rb := Rollback(m, env);
      if rb.outcome.Raised? then Step(rb.m.(complete := true), Returned, rb.calls)
      else if env.inner.clean.Raised? then
        Step(rb.m.(complete := true), Returned, rb.calls + [Call(Inner, Op.Clean)])
      else if env.outer.clean.Raised? then
        Step(rb.m.(complete := true), Returned, rb.calls + [Call(Inner, Op.Clean), Call(Outer, Op.Clean)])
      else
        Step(rb.m.(timerArmed := false, disposed := true, complete := true), Returned,
             rb.calls + [Call(Inner, Op.Clean), Call(Outer, Op.Clean)])
  }
}
