/**
  Properties of the transaction manager that relate several calls or several
  operations: call-order and at-most-once facts about whole traces, the
  scenarios the design promises (double Complete, timeout, rollback of both
  sides in either order, double Dispose, independent commit then Complete),
  the as-written consequences of `complete` being set before the joint commit
  and of CommitObserver being raised before a commit, and the coherence
  invariant `innerComplete && outerComplete ==> complete`.
 */
module TransactionScenarios {
  import opened Exceptions
  import opened Participants
  import opened TransactionManager

  /** Both participants keep the interface's contract in this operation. */
  predicate Honest(env: Env) {
    Honours(env.inner) && Honours(env.outer)
  }

  /** A freshly constructed scope: prepared, nothing finished. */
  predicate Fresh(m: Manager) {
    !m.complete && !m.innerComplete && !m.outerComplete && !m.timedOut && !m.disposed
  }

  // ---------------------------------------------------------------------------
  // Construction
  // ---------------------------------------------------------------------------

  /** The six traces Prepare can make: Outer's prepare, then Inner's
      prepare unless Outer's failed, then Inner's abort and Outer's abort
      after a TransactionException, stopping at the first abort that
      raises. */
  lemma PrepareCalls(m: Manager, env: Env)
    ensures PrepareShape(TransactionManager.Prepare(m, env).calls)
  {
    var r := TransactionManager.Prepare(m, env);
    if env.outer.prepare.Raised? && !env.outer.prepare.Throws(TransactionException) {
    } else if env.outer.prepare.Raised? {
    } else if env.inner.prepare.Raised? && !env.inner.prepare.Throws(TransactionException) {
    } else if env.inner.prepare.Raised? {
    }
  }

  predicate PrepareShape(calls: seq<Call>) {
    var op, ip, ia, oa := Call(Outer, Op.Prepare), Call(Inner, Op.Prepare), Call(Inner, Op.Abort), Call(Outer, Op.Abort);
    || calls == [op] || calls == [op, ia] || calls == [op, ia, oa]
    || calls == [op, ip] || calls == [op, ip, ia] || calls == [op, ip, ia, oa]
  }

  /** Every trace of Prepare is free of repetition, subscriptions, commits
      and rollbacks, and aborts Inner before Outer. */
  lemma PrepareShapeFacts(calls: seq<Call>)
    requires PrepareShape(calls)
    ensures && Distinct(calls) && NoneOf(calls, Op.Subscribe)
            && NoneOf(calls, Op.Commit) && NoneOf(calls, Op.Rollback)
            && (Call(Outer, Op.Abort) in calls ==> Precedes(calls, Call(Inner, Op.Abort), Call(Outer, Op.Abort)))
  {
    var ia, oa := Call(Inner, Op.Abort), Call(Outer, Op.Abort);
    if |calls| == 3 && calls[2] == oa {
      assert calls[1] == ia;
    } else if |calls| == 4 {
      assert calls[2] == ia && calls[3] == oa;
    }
  }

  /** Prepare and the constructor never commit or roll back, never repeat a
      call, and abort Inner before Outer. */
  lemma PrepareTrace(m: Manager, env: Env)
    ensures var r := TransactionManager.Prepare(m, env);
      && Distinct(r.calls) && NoneOf(r.calls, Op.Subscribe)
      && NoneOf(r.calls, Op.Commit) && NoneOf(r.calls, Op.Rollback)
      && (Call(Outer, Op.Abort) in r.calls ==> Precedes(r.calls, Call(Inner, Op.Abort), Call(Outer, Op.Abort)))
  {
    PrepareCalls(m, env);
    PrepareShapeFacts(TransactionManager.Prepare(m, env).calls);
  }

  /** The constructor's trace: the two subscriptions, then Prepare's calls;
      no call is repeated, nothing is committed or rolled back. */
  lemma CreateTrace(outerGiven: bool, innerGiven: bool, timeout: int, env: Env)
    ensures var r := Create(outerGiven, innerGiven, timeout, env);
      Distinct(r.calls) && NoneOf(r.calls, Op.Commit) && NoneOf(r.calls, Op.Rollback)
  {
    var r := Create(outerGiven, innerGiven, timeout, env);
    if outerGiven && innerGiven {
      var subscribed := [Call(Inner, Op.Subscribe), Call(Outer, Op.Subscribe)];
      var p := TransactionManager.Prepare(Initial, env);
      PrepareTrace(Initial, env);
      assert r.calls == subscribed + p.calls;
      forall i, j | 0 <= i < j < |r.calls| ensures r.calls[i] != r.calls[j] {
        if 2 <= i {
          assert r.calls[i] == p.calls[i - 2] && r.calls[j] == p.calls[j - 2];
        } else if 2 <= j {
          assert r.calls[j] == p.calls[j - 2];
        }
      }
      forall i | 0 <= i < |r.calls| ensures r.calls[i].op != Op.Commit && r.calls[i].op != Op.Rollback {
        if 2 <= i {
          assert r.calls[i] == p.calls[i - 2];
        }
      }
    }
  }

  /** Scenario: Outer fails to prepare.  Inner is never prepared, both
      participants are aborted, nothing is committed or rolled back, and the
      constructor raises TransactionException. */
  lemma OuterPrepareFailure(env: Env, timeout: int)
    requires env.outer.prepare.Throws(TransactionException) && env.inner.abort.Returned?
    ensures var r := Create(true, true, timeout, env);
      && r.outcome == Raised(TransactionException)
      && Call(Inner, Op.Prepare) !in r.calls
      && Call(Inner, Op.Abort) in r.calls && Call(Outer, Op.Abort) in r.calls
      && Distinct(r.calls) && NoneOf(r.calls, Op.Commit) && NoneOf(r.calls, Op.Rollback)
  {
    var r := Create(true, true, timeout, env);
    var p := TransactionManager.Prepare(Initial, env);
    assert r.calls == [Call(Inner, Op.Subscribe), Call(Outer, Op.Subscribe)] + p.calls;
    CreateTrace(true, true, timeout, env);
  }

  /** Scenario: Outer prepares, Inner does not.  Both are aborted, once
      each, and nothing is committed or rolled back. */
  lemma InnerPrepareFailure(env: Env, timeout: int)
    requires env.outer.prepare.Returned? && env.inner.prepare.Throws(TransactionException)
    requires env.inner.abort.Returned?
    ensures var r := Create(true, true, timeout, env);
      && r.outcome == Raised(TransactionException)
      && Call(Inner, Op.Abort) in r.calls && Call(Outer, Op.Abort) in r.calls
      && Distinct(r.calls) && NoneOf(r.calls, Op.Commit) && NoneOf(r.calls, Op.Rollback)
  {
    var r := Create(true, true, timeout, env);
    var p := TransactionManager.Prepare(Initial, env);
    assert r.calls == [Call(Inner, Op.Subscribe), Call(Outer, Op.Subscribe)] + p.calls;
    CreateTrace(true, true, timeout, env);
  }

  // ---------------------------------------------------------------------------
  // Joint commit
  // ---------------------------------------------------------------------------

  /** Inner is committed first and Outer last: on the joint path Outer.Commit
      happens only after a successful Inner.Commit, and no commit follows it. */
  lemma CompleteCommitsInnerBeforeOuter(m: Manager, env: Env)
    requires !m.innerComplete && !m.outerComplete
    ensures var r := Complete(m, env);
      Call(Outer, Op.Commit) in r.calls ==>
        && env.inner.commit.Returned?
        && Precedes(r.calls, Call(Inner, Op.Commit), Call(Outer, Op.Commit))
        && forall k :: 2 <= k < |r.calls| ==> r.calls[k].op != Op.Commit
  {
    var r := Complete(m, env);
    if Call(Outer, Op.Commit) in r.calls {
      assert r.calls[0] == Call(Inner, Op.Commit) && r.calls[1] == Call(Outer, Op.Commit);
      var j := JointCommit(m.(complete := true), env);
      assert |j.calls| == 2;
      if j.outcome.Throws(TransactionException) {
        var rb := TransactionManager.Rollback(j.m, env);
        assert r.calls == j.calls + rb.calls;
        forall k | 2 <= k < |r.calls| ensures r.calls[k].op != Op.Commit {
          assert r.calls[k] == rb.calls[k - 2];
        }
      } else {
        assert r == j;
      }
    }
  }

  /** CommitInner/CommitOuter traces: the side's commit, then possibly
      rollbacks; nothing repeated, nothing prepared or aborted. */
  lemma CommitSideTrace(m: Manager, side: Side, env: Env)
    ensures var r := CommitSide(m, side, env);
      && Distinct(r.calls) && NoneOf(r.calls, Op.Prepare) && NoneOf(r.calls, Op.Abort)
      && NoneAfter(r.calls, Op.Rollback, Op.Commit)
  {
    var r := CommitSide(m, side, env);
    if !m.disposed && !m.complete && !m.SideComplete(side) && !m.timedOut {
      var c := ParticipantCommit(m, side, env);
      var rb := TransactionManager.Rollback(c.m, env);
      var rollbacks := if c.outcome.Throws(TransactionException) then rb.calls else [];
      assert r.calls == c.calls + rollbacks;
      TwoPhases(c.calls, rollbacks, Op.Commit, Op.Rollback);
    }
  }

  /** The calls of Complete's joint commit: the commits, then Rollback's
      calls when a commit raised TransactionException. */
  lemma JointCompleteCalls(m: Manager, env: Env)
    requires !m.disposed && !m.complete && !m.innerComplete && !m.outerComplete && !m.timedOut
    ensures var j := JointCommit(m.(complete := true), env);
      var rb := TransactionManager.Rollback(j.m, env);
      Complete(m, env).calls == j.calls + (if j.outcome.Throws(TransactionException) then rb.calls else [])
  {
  }

  /** Complete's traces: commits, then possibly rollbacks; no call is
      repeated, no participant is prepared or aborted, and nothing is
      committed after a rollback. */
  lemma CompleteTrace(m: Manager, env: Env)
    ensures var r := Complete(m, env);
      && Distinct(r.calls) && NoneOf(r.calls, Op.Prepare) && NoneOf(r.calls, Op.Abort)
      && NoneAfter(r.calls, Op.Rollback, Op.Commit)
  {
    if m.disposed || m.complete {
    } else if m.innerComplete {
      CommitSideTrace(m, Outer, env);
    } else if m.outerComplete {
      CommitSideTrace(m, Inner, env);
    } else if !m.timedOut {
      var j := JointCommit(m.(complete := true), env);
      var rb := TransactionManager.Rollback(j.m, env);
      var rollbacks := if j.outcome.Throws(TransactionException) then rb.calls else [];
      JointCompleteCalls(m, env);
      assert Distinct(j.calls) && OnlyOf(j.calls, Op.Commit);
      TwoPhases(j.calls, rollbacks, Op.Commit, Op.Rollback);
    }
  }

  /** As written: with a participant that does not raise CommitObserver, a
      failed Inner commit in `Complete` is followed by no rollback at all,
      because `complete` was set before the commit; the scope still reports
      complete and TransactionException is raised. */
  lemma FailedJointCommitSkipsRollback(m: Manager, env: Env)
    requires Fresh(m)
    requires env.inner.notice == Silent && env.inner.commit.Throws(TransactionException)
    ensures var r := Complete(m, env);
      && r.outcome == Raised(TransactionException)
      && r.calls == [Call(Inner, Op.Commit)]
      && NoneOf(r.calls, Op.Rollback)
      && r.m.complete && !r.m.innerComplete && !r.m.outerComplete
  {
  }

  /** The intended behaviour: when Inner fails to commit, Outer is never
      committed and both participants are rolled back, once each, Inner
      first; the scope ends complete and TransactionException is raised. */
  lemma IntendedFailedCommitRollsBackBoth(m: Manager, env: Env)
    requires Fresh(m) && Honest(env)
    requires env.inner.notice != BeforeCommit && env.inner.commit.Throws(TransactionException)
    ensures var r := CompleteIntended(m, env);
      && r.outcome == Raised(TransactionException)
      && Call(Outer, Op.Commit) !in r.calls
      && Precedes(r.calls, Call(Inner, Op.Rollback), Call(Outer, Op.Rollback))
      && Distinct(r.calls)
      && r.m.complete
  {
    var r := CompleteIntended(m, env);
    var j := JointCommit(m, env);
    assert j.m == m;
    assert r.calls == [Call(Inner, Op.Commit), Call(Inner, Op.Rollback), Call(Outer, Op.Rollback)];
    assert r.calls[1] == Call(Inner, Op.Rollback) && r.calls[2] == Call(Outer, Op.Rollback);
  }

  /** As written with the generic provider, which raises CommitObserver
      before its commit: when Inner's commit then fails, CommitHandler has
      already marked Inner complete (and reset `complete`), so the rollback
      after the failure rolls back Outer only. */
  lemma ObserverBeforeFailedCommitSkipsInnerRollback(m: Manager, env: Env)
    requires Fresh(m)
    requires env.inner.notice == BeforeCommit && env.inner.commit.Throws(TransactionException)
    requires Tolerated(env.outer.rollback)
    ensures var r := Complete(m, env);
      && r.outcome == Raised(TransactionException)
      && r.calls == [Call(Inner, Op.Commit), Call(Outer, Op.Rollback)]
      && r.m.innerComplete && r.m.complete
  {
  }

  /** The same for CommitInner: the side is marked complete although its
      commit failed, and is not rolled back. */
  lemma ObserverBeforeFailedCommitInner(m: Manager, env: Env)
    requires Fresh(m)
    requires env.inner.notice == BeforeCommit && env.inner.commit.Throws(TransactionException)
    requires Tolerated(env.outer.rollback)
    ensures var r := CommitInner(m, env);
      && r.outcome == Raised(TransactionException)
      && r.m.innerComplete
      && Call(Inner, Op.Rollback) !in r.calls && Call(Outer, Op.Rollback) in r.calls
  {
  }

  /** Scenario: Inner committed independently (its observer marked it),
      then Complete commits only Outer. */
  lemma CommitInnerThenComplete(m: Manager, e1: Env, e2: Env)
    requires Fresh(m)
    requires e1.inner.commit.Returned? && e1.inner.notice != Silent
    ensures var s1 := CommitInner(m, e1);
      var s2 := Complete(s1.m, e2);
      && s1.outcome.Returned? && s1.m.innerComplete && !s1.m.complete
      && Call(Inner, Op.Commit) !in s2.calls
      && s2.calls != [] && s2.calls[0] == Call(Outer, Op.Commit)
  {
  }

  /** Calling Complete again after it returned normally raises
      InvalidOperationException and makes no participant call, provided the
      side it committed last raised CommitObserver. */
  lemma CompleteTwice(m: Manager, e1: Env, e2: Env)
    requires Complete(m, e1).outcome.Returned?
    requires m.innerComplete ==> e1.outer.notice != Silent
    requires !m.innerComplete && m.outerComplete ==> e1.inner.notice != Silent
    ensures Complete(Complete(m, e1).m, e2) ==
              Step(Complete(m, e1).m, Raised(InvalidOperationException), [])
  {
    var s1 := Complete(m, e1);
    assert !m.disposed;
    if m.innerComplete {
      assert s1.m.outerComplete && s1.m.innerComplete;
    } else if m.outerComplete {
      assert s1.m.outerComplete && s1.m.innerComplete;
    }
  }

  /** As written: when the participant does not raise CommitObserver, the
      delegated commit leaves the manager unchanged, so a second Complete
      commits Outer a second time. */
  lemma SilentDelegatedCommitRepeats(m: Manager, e1: Env, e2: Env)
    requires !m.disposed && !m.complete && m.innerComplete && !m.outerComplete && !m.timedOut
    requires e1.outer.notice == Silent && e1.outer.commit.Returned?
    ensures var s1 := Complete(m, e1);
      && s1.outcome.Returned? && s1.m == m
      && s1.calls == [Call(Outer, Op.Commit)]
      && Complete(s1.m, e2).calls[0] == Call(Outer, Op.Commit)
  {
  }

  /** The side flags are never set by CommitInner/CommitOuter themselves:
      with a participant that does not raise CommitObserver they keep their
      values whatever the commit's outcome. */
  lemma CommitSideLeavesFlagsToObserver(m: Manager, side: Side, env: Env)
    requires env.Of(side).notice == Silent
    ensures var r := CommitSide(m, side, env);
      r.m.innerComplete == m.innerComplete && r.m.outerComplete == m.outerComplete
  {
    var r := CommitSide(m, side, env);
    if !m.disposed && !m.complete && !m.SideComplete(side) && !m.timedOut {
      var c := ParticipantCommit(m, side, env);
      assert c.m == m;
      if c.outcome.Throws(TransactionException) {
        assert OnlyCompleteDiffers(c.m, TransactionManager.Rollback(c.m, env).m);
      }
    }
  }

  // ---------------------------------------------------------------------------
  // Timeout
  // ---------------------------------------------------------------------------

  /** After the scope timed out, Complete, CommitInner and CommitOuter are
      refused without any participant call. */
  lemma TimedOutRefusesCommits(m: Manager, e1: Env, e2: Env)
    ensures var t := Timeout(m, e1).m;
      && Complete(t, e2).calls == [] && Complete(t, e2).outcome.Raised?
      && CommitInner(t, e2).calls == [] && CommitInner(t, e2).outcome.Raised?
      && CommitOuter(t, e2).calls == [] && CommitOuter(t, e2).outcome.Raised?
  {
  }

  /** Scenario: a participant's rollback raises ObjectDisposedException;
      the rollback sequence still rolls back the other side and does not
      re-raise. */
  lemma DisposedParticipantDoesNotStopRollback(m: Manager, env: Env)
    requires Fresh(m)
    requires env.inner.rollback.Throws(ObjectDisposedException) && Tolerated(env.outer.rollback)
    ensures var r := Timeout(m, env);
      && r.outcome.Returned? && r.m.complete
      && r.calls == [Call(Inner, Op.Rollback), Call(Outer, Op.Rollback)]
  {
  }

  // ---------------------------------------------------------------------------
  // Independent rollback
  // ---------------------------------------------------------------------------

  /** Scenario: RollbackInner then RollbackOuter, or the reverse, ends
      the scope with each participant rolled back exactly once. */
  lemma RollbackBothInEitherOrder(m: Manager, e1: Env, e2: Env, innerFirst: bool)
    requires Fresh(m)
    requires Tolerated((if innerFirst then e2.outer else e2.inner).rollback)
    ensures var first := if innerFirst then RollbackInner(m, e1) else RollbackOuter(m, e1);
      var second := if innerFirst then RollbackOuter(first.m, e2) else RollbackInner(first.m, e2);
      var calls := first.calls + second.calls;
      && second.m.complete
      && |calls| == 2 && Distinct(calls) && OnlyOf(calls, Op.Rollback)
      && Call(Inner, Op.Rollback) in calls && Call(Outer, Op.Rollback) in calls
  {
    var first := if innerFirst then RollbackInner(m, e1) else RollbackOuter(m, e1);
    var second := if innerFirst then RollbackOuter(first.m, e2) else RollbackInner(first.m, e2);
    var calls := first.calls + second.calls;
    if innerFirst {
      assert calls == [Call(Inner, Op.Rollback), Call(Outer, Op.Rollback)];
    } else {
      assert calls == [Call(Outer, Op.Rollback), Call(Inner, Op.Rollback)];
    }
  }

  /** RollbackInner/RollbackOuter roll a side back at most once. */
  lemma RollbackSideOnce(m: Manager, side: Side, e1: Env, e2: Env)
    ensures RollbackSide(RollbackSide(m, side, e1).m, side, e2).calls == []
  {
    var s1 := RollbackSide(m, side, e1);
    assert s1.m.complete || s1.m.SideComplete(side);
  }

  // ---------------------------------------------------------------------------
  // Dispose
  // ---------------------------------------------------------------------------

  /** No call of kind `late` is made after a call of kind `early`. */
  predicate NoneAfter(calls: seq<Call>, early: Op, late: Op) {
    forall i, j :: 0 <= i < j < |calls| && calls[i].op == early ==> calls[j].op != late
  }

  /** Calls of kind `x` followed by calls of kind `y`, each phase without
      repetition, make a trace without repetition, of those two kinds only,
      with no `x` after a `y`. */
  lemma {:induction false} TwoPhases(a: seq<Call>, b: seq<Call>, x: Op, y: Op)
    requires x != y && OnlyOf(a, x) && Distinct(a) && OnlyOf(b, y) && Distinct(b)
    ensures var c := a + b;
      && Distinct(c) && NoneAfter(c, y, x)
      && forall z :: z != x && z != y ==> NoneOf(c, z)
  {
    var c := a + b;
    forall i, j | 0 <= i < j < |c| ensures c[i] != c[j] {
      if j < |a| {
        assert c[i] == a[i] && c[j] == a[j];
      } else if i >= |a| {
        assert c[i] == b[i - |a|] && c[j] == b[j - |a|];
      } else {
        assert c[i] == a[i] && c[j] == b[j - |a|];
      }
    }
    forall z | z != x && z != y ensures NoneOf(c, z) {
      forall i | 0 <= i < |c| ensures c[i].op != z {
        if i < |a| { assert c[i] == a[i]; } else { assert c[i] == b[i - |a|]; }
      }
    }
    forall i, j | 0 <= i < j < |c| && c[i].op == y ensures c[j].op != x {
      if j >= |a| {
        assert c[j] == b[j - |a|];
      }
    }
  }

  /** Dispose's calls: Rollback's, then the cleans, Inner's first, up to
      the first that raises; none when the rollback let an exception out. */
  lemma DisposeCalls(m: Manager, env: Env)
    requires !m.disposed
    ensures var rb, r := TransactionManager.Rollback(m, env), Dispose(m, env);
      var ic, oc := Call(Inner, Op.Clean), Call(Outer, Op.Clean);
      r.calls == rb.calls + (if rb.outcome.Raised? then [] else if env.inner.clean.Raised? then [ic] else [ic, oc])
  {
  }

  /** Dispose traces: at most one call of each kind per side, never a
      commit, and no rollback once cleaning has begun. */
  lemma DisposeTrace(m: Manager, env: Env)
    ensures var r := Dispose(m, env);
      && Distinct(r.calls) && NoneOf(r.calls, Op.Commit) && NoneAfter(r.calls, Op.Clean, Op.Rollback)
      && (m.complete ==> NoneOf(r.calls, Op.Rollback))
  {
    if !m.disposed {
      var rb := TransactionManager.Rollback(m, env);
      var ic, oc := Call(Inner, Op.Clean), Call(Outer, Op.Clean);
      var cleans: seq<Call> :=
        if rb.outcome.Raised? then []
        else if env.inner.clean.Raised? then [ic]
        else [ic, oc];
      DisposeCalls(m, env);
      TwoPhases(rb.calls, cleans, Op.Rollback, Op.Clean);
    }
  }

  /** Scenario: Dispose of a scope that was never completed rolls both
      participants back once and cleans both; a second Dispose makes no
      participant call at all. */
  lemma DisposeTwice(m: Manager, e1: Env, e2: Env)
    requires Fresh(m) && Honest(e1) && e1.inner.clean.Returned? && e1.outer.clean.Returned?
    ensures var d1 := Dispose(m, e1);
      var d2 := Dispose(d1.m, e2);
      && d1.calls == [Call(Inner, Op.Rollback), Call(Outer, Op.Rollback), Call(Inner, Op.Clean), Call(Outer, Op.Clean)]
      && d1.m.disposed && d1.m.complete && !d1.m.timerArmed
      && d2.calls == [] && d2.outcome.Returned?
  {
  }

  /** When Rollback lets an exception out, Dispose still returns normally and
      sets `complete`, but does not clean or mark itself disposed; a second
      Dispose then cleans without rolling back. */
  lemma DisposeAfterEscapingRollback(m: Manager, e1: Env, e2: Env)
    requires Fresh(m) && !Tolerated(e1.inner.rollback)
    requires e2.inner.clean.Returned? && e2.outer.clean.Returned?
    ensures var d1 := Dispose(m, e1);
      var d2 := Dispose(d1.m, e2);
      && d1.outcome.Returned? && d1.calls == [Call(Inner, Op.Rollback)] && !d1.m.disposed
      && d2.calls == [Call(Inner, Op.Clean), Call(Outer, Op.Clean)] && d2.m.disposed
  {
  }

  // ---------------------------------------------------------------------------
  // Coherence: innerComplete && outerComplete ==> complete
  // ---------------------------------------------------------------------------

  predicate Coherent(m: Manager) {
    m.innerComplete && m.outerComplete ==> m.complete
  }

  lemma RollbackKeepsCoherence(m: Manager, env: Env)
    requires Coherent(m) && Honest(env)
    ensures Coherent(TransactionManager.Rollback(m, env).m) && TransactionManager.Rollback(m, env).outcome.Returned?
  {
    var r := TransactionManager.Rollback(m, env);
    assert OnlyCompleteDiffers(m, r.m);
    assert Tolerated(env.inner.rollback) && Tolerated(env.outer.rollback);
  }

  lemma ParticipantCommitKeepsCoherence(m: Manager, side: Side, env: Env)
    requires Coherent(m)
    ensures Coherent(ParticipantCommit(m, side, env).m)
  {
    var b := env.Of(side);
    var m1 := if b.notice == BeforeCommit then CommitHandler(m, From(side)) else m;
    assert Coherent(m1);
    var m2 := if b.notice == AfterCommit && b.commit.Returned? then CommitHandler(m1, From(side)) else m1;
    assert Coherent(m2);
    assert ParticipantCommit(m, side, env).m == m2;
  }

  lemma CommitSideKeepsCoherence(m: Manager, side: Side, env: Env)
    requires Coherent(m) && Honest(env)
    ensures Coherent(CommitSide(m, side, env).m)
  {
    if !m.disposed && !m.complete && !m.SideComplete(side) && !m.timedOut {
      var c := ParticipantCommit(m, side, env);
      ParticipantCommitKeepsCoherence(m, side, env);
      if c.outcome.Throws(TransactionException) {
        RollbackKeepsCoherence(c.m, env);
      }
    }
  }

  lemma CompleteKeepsCoherence(m: Manager, env: Env)
    requires Coherent(m) && Honest(env)
    ensures Coherent(Complete(m, env).m)
  {
    if m.disposed || m.complete {
    } else if m.innerComplete {
      CommitSideKeepsCoherence(m, Outer, env);
    } else if m.outerComplete {
      CommitSideKeepsCoherence(m, Inner, env);
    } else if !m.timedOut {
      var m0 := m.(complete := true);
      var ci := ParticipantCommit(m0, Inner, env);
      ParticipantCommitKeepsCoherence(m0, Inner, env);
      if ci.outcome.Returned? {
        ParticipantCommitKeepsCoherence(ci.m, Outer, env);
      }
      var j := JointCommit(m0, env);
      assert Coherent(j.m);
      if j.outcome.Throws(TransactionException) {
        RollbackKeepsCoherence(j.m, env);
      }
    }
  }

  /** Every operation keeps the scope coherent when both participants keep
      their contract. */
  lemma OperationsKeepCoherence(m: Manager, env: Env, side: Side, sender: Sender)
    requires Coherent(m) && Honest(env)
    ensures Coherent(Complete(m, env).m)
    ensures Coherent(CommitSide(m, side, env).m)
    ensures Coherent(RollbackSide(m, side, env).m)
    ensures Coherent(TransactionManager.Rollback(m, env).m)
    ensures Coherent(Timeout(m, env).m)
    ensures Coherent(Dispose(m, env).m)
    ensures Coherent(CommitHandler(m, sender))
  {
    CompleteKeepsCoherence(m, env);
    CommitSideKeepsCoherence(m, side, env);
    RollbackKeepsCoherence(m, env);
    RollbackKeepsCoherence(m.(timedOut := true), env);
  }

  /** Hence on a coherent scope `Complete` never attempts the joint commit of
      two sides that both finished independently: it refuses instead. */
  lemma CoherentCompleteNeverRecommits(m: Manager, env: Env)
    requires Coherent(m) && m.innerComplete && m.outerComplete && !m.disposed
    ensures Complete(m, env) == Step(m, Raised(InvalidOperationException), [])
  {
  }

  /** Without the contract the invariant can break: a rollback that raises
      an exception other than ObjectDisposed/Transaction leaves both sides
      marked but the scope not complete. */
  lemma EscapingRollbackBreaksCoherence(m: Manager, env: Env)
    requires !m.complete && m.innerComplete && !m.outerComplete
    requires !Tolerated(env.outer.rollback)
    ensures !Coherent(RollbackOuter(m, env).m)
  {
  }
}
