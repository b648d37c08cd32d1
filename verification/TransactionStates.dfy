/** The transaction state table of internal/domain/state.go and what holds of every walk through it. */
module TransactionStates {

  datatype State =
    | Created | Active | Sealed | Verifying | FailedVerification | Ready | Stale
    | Committing | Aborting | Aborted | Compensating | Compensated
    | NeedsReconciliation | Committed | ManualIntervention

  /** The table itself: which states a state may move to. */
  predicate CanTransition(from: State, to: State) {
    match from
    case Created => to.Active? || to.Aborting?
    case Active => to.Sealed? || to.Aborting?
    case Sealed => to.Verifying? || to.Aborting?
    case Verifying => to.FailedVerification? || to.Ready? || to.Stale?
    case FailedVerification => to.Active? || to.Aborting?
    case Ready => to.Committing? || to.Stale? || to.Aborting?
    case Stale => to.Verifying? || to.Aborting?
    case Committing => to.Committed? || to.Compensating? || to.NeedsReconciliation?
    case Compensating => to.Compensated? || to.NeedsReconciliation?
    case Aborting => to.Aborted?
    case NeedsReconciliation =>
      to.Ready? || to.Stale? || to.Committed? || to.Compensated? || to.ManualIntervention?
    case Aborted => false
    case Compensated => false
    case Committed => false
    case ManualIntervention => false
  }

  /** A walk: every consecutive pair is in the table. */
  predicate Walk(path: seq<State>) {
    forall i :: 0 < i < |path| ==> CanTransition(path[i - 1], path[i])
  }

  /** The walk takes the step from -> to before position end. */
  predicate Takes(path: seq<State>, from: State, to: State, end: nat) {
    exists i :: 0 < i < |path| && i <= end && path[i - 1] == from && path[i] == to
  }

  /** The states in which a provider may have been asked to act. */
  predicate Releasing(s: State) {
    s.Committing? || s.NeedsReconciliation? || s.Compensating? || s.Compensated? || s.Committed?
        || s.ManualIntervention?
  }

  /** States that can only be entered by way of a successful verification. */
  predicate PastVerification(s: State) {
    s == Ready || Releasing(s)
  }

  lemma {:induction false} EntersPastVerification(path: seq<State>, at: nat)
    requires Walk(path) && at < |path| && path[0] == Created && PastVerification(path[at])
    ensures Takes(path, Verifying, Ready, at)
    decreases at
  {
    var before := path[at - 1];
    assert CanTransition(before, path[at]);
    if before != Verifying {
      if PastVerification(before) {
        EntersPastVerification(path, at - 1);
        var i :| 0 < i < |path| && i <= at - 1 && path[i - 1] == Verifying && path[i] == Ready;
        assert 0 < i < |path| && i <= at && path[i - 1] == Verifying && path[i] == Ready;
      }
    }
  }

  /**
   * Nothing is released, reconciled, compensated or committed on a walk from Created unless the
   * walk took ready -> committing, and took verifying -> ready strictly before that.
   */
  lemma {:induction false} ReleaseIsGated(path: seq<State>, at: nat)
    requires Walk(path) && at < |path| && path[0] == Created && Releasing(path[at])
    ensures exists i :: 0 < i < |path| && i <= at && path[i - 1] == Ready && path[i] == Committing
                        && Takes(path, Verifying, Ready, i - 1)
    decreases at
  {
    var before := path[at - 1];
    assert CanTransition(before, path[at]);
    if Releasing(before) {
      ReleaseIsGated(path, at - 1);
      var i :| 0 < i < |path| && i <= at - 1 && path[i - 1] == Ready && path[i] == Committing
               && Takes(path, Verifying, Ready, i - 1);
      assert 0 < i < |path| && i <= at && path[i - 1] == Ready && path[i] == Committing;
    } else {
      EntersPastVerification(path, at - 1);
      assert 0 < at < |path| && path[at - 1] == Ready && path[at] == Committing;
    }
  }

  predicate Absorbing(s: State) {
    s.Committed? || s.Aborted? || s.Compensated? || s.ManualIntervention?
  }

  /** A state has no exit exactly when it is one of the four final ones. */
  lemma AbsorbingExactly(s: State)
    ensures Absorbing(s) <==> forall t :: !CanTransition(s, t)
  {
    if !Absorbing(s) {
      assert exists t :: CanTransition(s, t) by {
        match s
        case Created => assert CanTransition(s, Active);
        case Active => assert CanTransition(s, Sealed);
        case Sealed => assert CanTransition(s, Verifying);
        case Verifying => assert CanTransition(s, Ready);
        case FailedVerification => assert CanTransition(s, Active);
        case Ready => assert CanTransition(s, Stale);
        case Stale => assert CanTransition(s, Verifying);
        case Committing => assert CanTransition(s, Committed);
        case Compensating => assert CanTransition(s, Compensated);
        case Aborting => assert CanTransition(s, Aborted);
        case NeedsReconciliation => assert CanTransition(s, Ready);
      }
    }
  }

  /** Once final, for ever final: a walk that meets a final state ends there. */
  lemma FinalStateEndsTheWalk(path: seq<State>, at: nat)
    requires Walk(path) && at < |path| && Absorbing(path[at])
    ensures at == |path| - 1
  {
    assert at + 1 < |path| ==> CanTransition(path[at], path[at + 1]);
  }

  /** b can be reached from a by table steps. */
  ghost predicate Reaches(a: State, b: State) {
    exists path :: |path| > 0 && Walk(path) && path[0] == a && path[|path| - 1] == b
  }

  lemma ReachesItself(a: State)
    ensures Reaches(a, a)
  {
    assert Walk([a]) && [a][0] == a && [a][|[a]| - 1] == a;
  }

  lemma ReachesInOne(a: State, b: State)
    requires CanTransition(a, b)
    ensures Reaches(a, b)
  {
    var path := [a, b];
    assert Walk(path) && path[0] == a && path[|path| - 1] == b;
  }

  lemma ReachesTransitive(a: State, b: State, c: State)
    requires Reaches(a, b) && Reaches(b, c)
    ensures Reaches(a, c)
  {
    var p :| |p| > 0 && Walk(p) && p[0] == a && p[|p| - 1] == b;
    var q :| |q| > 0 && Walk(q) && q[0] == b && q[|q| - 1] == c;
    var path := p + q[1..];
    assert Walk(path) by {
      forall i | 0 < i < |path| ensures CanTransition(path[i - 1], path[i]) {
        if i >= |p| {
          assert path[i] == q[i - |p| + 1] && path[i - 1] == q[i - |p|];
        }
      }
    }
    assert path[0] == a && path[|path| - 1] == c;
  }
}
