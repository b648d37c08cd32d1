/**
 * The coordinator in the form it has in internal/app: methods that change the world step by step,
 * with loops, local flags and early returns, each proved equal to its function in Coordinator. The
 * theorems about whole runs are about those functions.
 */
module Service {
  import opened CommitWorld
  import C = Coordinator
  import S = TransactionStates

  class Service {
    /** The ledger's rows, the providers and the repository, as the calls below find and leave them. */
    var world: World

    constructor (w: World)
      ensures world == w
    {
      world := w;
    }

    /** One call of a dependency: the world it leaves, and whether it reported success. */
    method Take(r: Out) returns (ok: bool)
      modifies this
      ensures world == r.w && ok == r.ok
    {
      world := r.w;
      ok := r.ok;
    }

    // ---- One effect ----

    method EffectUnknown(id: EffectId)
      modifies this
      ensures world == C.EffectUnknown(old(world), id).w
    {
      var _ := Take(MarkEffectUnknown(world, id));
      var _ := Take(MarkNeedsReconciliation(world));
    }

    method EffectDefiniteFailure(id: EffectId)
      modifies this
      ensures world == C.EffectDefiniteFailure(old(world), id).w
    {
      var _ := Take(MarkEffectDefiniteFailure(world, id));
      var _ := Take(MarkNeedsReconciliation(world));
    }

    method RecordReceipt(id: EffectId) returns (ok: bool)
      modifies this
      ensures Out(world, ok) == C.RecordReceipt(old(world), id)
    {
      ok := Take(RecordEffectCommitted(world, id));
      if !ok {
        var _ := Take(MarkNeedsReconciliation(world));
      }
    }

    method Status(s: Spec) returns (answer: StatusAnswer)
      modifies this
      ensures answer == QueryStatus(old(world), s) && world == Tick(old(world))
    {
      answer := QueryStatus(world, s);
      world := Tick(world);
    }

    method Freshness() returns (answer: FreshAnswer)
      modifies this
      ensures answer == VerifyFresh(old(world)) && world == Tick(old(world))
    {
      answer := VerifyFresh(world);
      world := Tick(world);
    }

    method Publish(id: EffectId) returns (answer: MutationAnswer)
      modifies this
      ensures answer == MutationReply(old(world)) && world == Mutate(old(world), id)
    {
      answer := MutationReply(world);
      world := Mutate(world, id);
    }

    /** The provider call and its classification, which the three adapters share. */
    method Release(id: EffectId) returns (ok: bool)
      modifies this
      ensures Out(world, ok) == C.Release(old(world), id)
    {
      var answer := Publish(id);
      if answer.Ambiguous? {
        EffectUnknown(id);
        return false;
      }
      if answer.Rejected? {
        EffectDefiniteFailure(id);
        return false;
      }
      ok := RecordReceipt(id);
    }

    method QueryThenRelease(s: Spec) returns (ok: bool)
      modifies this
      ensures Out(world, ok) == C.QueryThenRelease(old(world), s)
    {
      var status := Status(s);
      if status.NoAnswer? {
        EffectUnknown(s.id);
        return false;
      }
      if status.Found? {
        ok := RecordReceipt(s.id);
        return;
      }
      if status.Conflict? {
        EffectDefiniteFailure(s.id);
        return false;
      }
      ok := Release(s.id);
    }

    method CommitGitHubBranch(s: Spec) returns (ok: bool)
      requires s.adapter.GitHubBranch?
      modifies this
      ensures Out(world, ok) == C.CommitOne(old(world), s)
    {
      hide C.QueryThenRelease;
      ok := Take(BeginCommitAttempt(world, s.id));
      if !ok { return; }
      ok := QueryThenRelease(s);
    }

    method CommitGitHubPR(s: Spec) returns (ok: bool)
      requires s.adapter.GitHubDraftPR?
      modifies this
      ensures Out(world, ok) == C.CommitOne(old(world), s)
    {
      hide C.QueryThenRelease;
      ok := Take(BeginCommitAttempt(world, s.id));
      if !ok { return; }
      ok := Take(Read(world));
      if !ok { return; }
      var verified := Freshness();
      if verified.StaleResource? {
        EffectDefiniteFailure(s.id);
        return false;
      }
      if verified.FreshError? {
        EffectUnknown(s.id);
        return false;
      }
      ok := QueryThenRelease(s);
    }

    method CommitSlackMessage(s: Spec) returns (ok: bool)
      requires s.adapter.SlackMessage?
      modifies this
      ensures Out(world, ok) == C.CommitOne(old(world), s)
    {
      hide C.QueryThenRelease;
      ok := Take(BeginCommitAttempt(world, s.id));
      if !ok { return; }
      ok := Take(Read(world));
      if !ok { return; }
      ok := QueryThenRelease(s);
    }

    // ---- The list of effects ----

    method List() returns (ok: bool, effects: seq<C.Row>)
      modifies this
      ensures Out(world, ok) == Read(old(world)) && effects == C.Rows(world.list, world.fx)
    {
      ok := Take(Read(world));
      effects := C.Rows(world.list, world.fx);
    }

    /** The release of the whole list, in the order in which the ledger lists it. */
    method CommitExternalEffects() returns (ok: bool)
      modifies this
      ensures Out(world, ok) == C.CommitExternalEffects(old(world))
    {
      hide C.CommitOne;
      var effects;
      ok, effects := List();
      if !ok { return; }
      ghost var all := C.CommitExternalEffects(old(world));
      var committed: set<EffectId> := {};
      var k := 0;
      while k < |effects|
        invariant 0 <= k <= |effects|
        invariant committed == set j | 0 <= j < k && effects[j].status.Committed? :: effects[j].spec.id
      {
        if effects[k].status.Committed? {
          committed := committed + {effects[k].spec.id};
        }
        k := k + 1;
      }
      var i := 0;
      while i < |effects|
        invariant 0 <= i <= |effects|
        invariant C.CommitFrom(world, effects, i, committed) == all
      {
        var effect := effects[i];
        if !effect.status.Committed? {
          if !effect.status.Verified? && !effect.status.Prepared? { return false; }
          if !(effect.spec.dependsOn <= committed) { return false; }
          match effect.spec.adapter {
            case GitHubBranch => ok := CommitGitHubBranch(effect.spec);
            case GitHubDraftPR => ok := CommitGitHubPR(effect.spec);
            case SlackMessage => ok := CommitSlackMessage(effect.spec);
          }
          if !ok { return; }
          committed := committed + {effect.spec.id};
        }
        i := i + 1;
      }
      ok := true;
    }

    /** The look-up of one unresolved effect during reconciliation. */
    method ReconcileOne(s: Spec) returns (ok: bool, committed: bool)
      modifies this
      ensures var r := C.ReconcileOne(old(world), s, C.Tally(true, true, false));
              world == r.w && ok == r.t.ok && (ok ==> committed == r.t.any && committed == r.t.all)
    {
      hide C.RecordReceipt;
      committed := false;
      ok := Take(BeginStatusAttempt(world, s.id));
      if !ok { return; }
      if s.adapter.SlackMessage? {
        ok := Take(Read(world));
        if !ok { return; }
      }
      var status := Status(s);
      match status {
        case NoAnswer =>
          var _ := Take(MarkEffectUnknown(world, s.id));
          ok := false;
        case NotFound =>
          ok := Take(RearmEffect(world, s.id));
        case Conflict =>
          var _ := Take(Transition(world, S.NeedsReconciliation, S.ManualIntervention, false));
          ok := false;
        case Found =>
          ok := RecordReceipt(s.id);
          committed := ok;
      }
    }

    /** Every unresolved effect is looked up; the two flags sum up what was found. */
    method ReconcileExternalEffects() returns (allCommitted: bool, anyCommitted: bool, ok: bool)
      modifies this
      ensures var r := C.ReconcileExternalEffects(old(world));
              world == r.w && ok == r.t.ok && (ok ==> allCommitted == r.t.all && anyCommitted == r.t.any)
    {
      hide C.ReconcileOne;
      var effects;
      ok, effects := List();
      if !ok { return false, false, false; }
      ghost var all := C.ReconcileExternalEffects(old(world));
      allCommitted, anyCommitted := true, false;
      var i := 0;
      while i < |effects|
        invariant 0 <= i <= |effects|
        invariant C.ReconcileFrom(world, effects, i, C.Tally(true, allCommitted, anyCommitted)) == all
      {
        var effect := effects[i];
        match effect.status {
          case Committed =>
            anyCommitted := true;
          case Verified =>
            allCommitted := false;
          case Prepared =>
            allCommitted := false;
          case Unknown =>
            TallyIsCarried(world, effect.spec, C.Tally(true, allCommitted, anyCommitted));
            var found;
            ok, found := ReconcileOne(effect.spec);
            if !ok { return; }
            allCommitted, anyCommitted := allCommitted && found, anyCommitted || found;
          case Committing =>
            TallyIsCarried(world, effect.spec, C.Tally(true, allCommitted, anyCommitted));
            var found;
            ok, found := ReconcileOne(effect.spec);
            if !ok { return; }
            allCommitted, anyCommitted := allCommitted && found, anyCommitted || found;
          case _ =>
            return allCommitted, anyCommitted, false;
        }
        i := i + 1;
      }
      ok := true;
    }

    method PreflightOne(s: Spec) returns (ok: bool)
      modifies this
      ensures Out(world, ok) == C.PreflightOne(old(world), s)
    {
      if !s.adapter.GitHubBranch? {
        ok := Take(Read(world));
        if !ok { return; }
      }
      var checked := Freshness();
      if checked.StaleResource? && !s.adapter.SlackMessage? {
        var _ := Take(Transition(world, S.Ready, S.Stale, true));
      }
      ok := checked.Fresh?;
    }

    method PreflightExternalEffects() returns (ok: bool)
      modifies this
      ensures Out(world, ok) == C.PreflightExternalEffects(old(world))
    {
      hide C.PreflightOne;
      var effects;
      ok, effects := List();
      if !ok { return; }
      ghost var all := C.PreflightExternalEffects(old(world));
      var i := 0;
      while i < |effects|
        invariant 0 <= i <= |effects|
        invariant C.PreflightFrom(world, effects, i) == all
      {
        if !effects[i].status.Committed? {
          ok := PreflightOne(effects[i].spec);
          if !ok { return; }
        }
        i := i + 1;
      }
      ok := true;
    }

    // ---- The calls of the service ----

    method MarkForReconciliation()
      modifies this
      ensures world == C.GiveUp(old(world)).w
    {
      var _ := Take(MarkNeedsReconciliation(world));
    }

    method Pinned() returns (answer: PinAnswer)
      modifies this
      ensures answer == SourcePinned(old(world)) && world == Tick(old(world))
    {
      answer := SourcePinned(world);
      world := Tick(world);
    }

    method InspectIntegrationRef() returns (answer: RefAnswer)
      modifies this
      ensures answer == InspectRef(old(world)) && world == Tick(old(world))
    {
      answer := InspectRef(world);
      world := Tick(world);
    }

    method Commit(digest: nat) returns (ok: bool)
      modifies this
      ensures Out(world, ok) == C.Commit(old(world), digest)
    {
      hide C.CommitBegun, C.PreflightExternalEffects;
      ok := Take(Read(world));
      if !ok { return; }
      if !world.tx.Ready? { return false; }
      ok := Take(Read(world));
      if !ok { return; }
      var pinned := Pinned();
      if pinned.PinError? { return false; }
      if pinned.HasMoved? {
        var _ := Take(Transition(world, S.Ready, S.Stale, true));
        return false;
      }
      ok := PreflightExternalEffects();
      if !ok { return; }
      ok := Take(Read(world));
      if !ok { return; }
      ok := Take(BeginCommit(world, digest));
      if !ok { return; }
      ok := CommitBegun();
    }

    /** The rest of a commit: whatever fails from here on asks for reconciliation. */
    method CommitBegun() returns (ok: bool)
      modifies this
      ensures Out(world, ok) == C.CommitBegun(old(world))
    {
      hide C.CommitExternalEffects, Materialize, RecordMaterializedRef, FinalizeTransactionCommit;
      ok := Take(Read(world));
      if !ok {
        MarkForReconciliation();
        return;
      }
      var ref := InspectIntegrationRef();
      if ref.RefError? {
        MarkForReconciliation();
        return false;
      }
      if ref.RefAbsent? {
        ok := Take(Materialize(world));
        if !ok {
          MarkForReconciliation();
          return;
        }
      }
      ok := Take(RecordMaterializedRef(world));
      if !ok {
        MarkForReconciliation();
        return;
      }
      ok := CommitExternalEffects();
      if !ok {
        var read := Take(Read(world));
        if read && world.tx.Committing? {
          MarkForReconciliation();
        }
        return;
      }
      ok := Take(FinalizeTransactionCommit(world));
      if !ok {
        MarkForReconciliation();
      }
    }

    method Recover() returns (ok: bool)
      modifies this
      ensures Out(world, ok) == C.Recover(old(world))
    {
      hide C.ReconcileAndResolve;
      ok := Take(Read(world));
      if !ok { return; }
      if !world.tx.Committing? && !world.tx.NeedsReconciliation? { return false; }
      if world.tx.Committing? {
        ok := Take(MarkNeedsReconciliation(world));
        if !ok { return; }
      }
      ok := Take(Read(world));
      if !ok { return; }
      ok := Take(Read(world));
      if !ok { return; }
      ok := Take(Read(world));
      if !ok { return; }
      var ref := InspectIntegrationRef();
      if ref.RefError? { return false; }
      ok := ReconcileAndResolve(ref.RefPresent?);
    }

    /** The rest of a recovery, once the ref has been looked up. */
    method ReconcileAndResolve(refExists: bool) returns (ok: bool)
      modifies this
      ensures Out(world, ok) == C.ReconcileAndResolve(old(world), refExists)
    {
      hide C.ReconcileExternalEffects, C.CommitExternalEffects, FinalizeTransactionCommit, RecordMaterializedRef,
          Transition;
      if refExists {
        ok := Take(RecordMaterializedRef(world));
        if !ok { return; }
      }
      var allCommitted, anyCommitted;
      allCommitted, anyCommitted, ok := ReconcileExternalEffects();
      if !ok { return; }
      if refExists && allCommitted {
        ok := Take(FinalizeTransactionCommit(world));
        return;
      }
      if refExists && anyCommitted && !allCommitted {
        ok := CommitExternalEffects();
        if !ok { return; }
        ok := Take(FinalizeTransactionCommit(world));
        return;
      }
      if anyCommitted && !refExists {
        var _ := Take(Transition(world, S.NeedsReconciliation, S.ManualIntervention, false));
        return false;
      }
      var pinned := Pinned();
      match pinned {
        case PinError => ok := false;
        case IsPinned => ok := Take(Transition(world, S.NeedsReconciliation, S.Ready, false));
        case HasMoved => ok := Take(Transition(world, S.NeedsReconciliation, S.Stale, true));
      }
    }

    method Abort() returns (ok: bool)
      modifies this
      ensures Out(world, ok) == C.Abort(old(world))
    {
      ok := Take(Read(world));
      if !ok { return; }
      if !C.Abortable(world.tx) { return false; }
      ok := Take(Read(world));
      if !ok { return; }
      if C.SomeAttempted(world.fx) { return false; }
      ok := Take(Transition(world, world.tx, S.Aborting, true));
      if !ok { return; }
      ok := Take(AbortPreparedEffects(world));
      if !ok { return; }
      var _ := Take(Read(world));
      ok := Take(Transition(world, S.Aborting, S.Aborted, true));
    }
  }

  /** A look-up adds its own finding to the tally it is given. */
  lemma TallyIsCarried(w: World, s: Spec, t: C.Tally)
    requires t.ok
    ensures var r := C.ReconcileOne(w, s, t);
            var r0 := C.ReconcileOne(w, s, C.Tally(true, true, false));
            && r.w == r0.w && r.t.ok == r0.t.ok
            && (r.t.ok ==> r.t == C.Tally(true, t.all && r0.t.any, t.any || r0.t.any) && r0.t.all == r0.t.any)
  {
    hide C.RecordReceipt;
  }
}
