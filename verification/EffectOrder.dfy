/** The dependency graph that preparing effects builds, and the order in which the ledger lists it. */
module EffectOrder {
  import opened CommitWorld
  import opened Coordinator
  import opened CoordinatorSafety
  import opened CoordinatorRuns
  import opened CoordinatorLiveness

  /** t is in the list, and s, prepared later, depends on it. */
  predicate Needs(list: seq<Spec>, s: Spec, t: Spec) {
    s in list && t in list && t.id in s.dependsOn
  }

  /** Dependencies point to earlier preparations; a branch has none and a draft PR only branches. */
  ghost predicate Built(list: seq<Spec>) {
    && (forall s, t :: Needs(list, s, t) ==> t.born < s.born)
    && (forall s, t :: Needs(list, s, t) ==> !s.adapter.GitHubBranch?)
    && (forall s, t :: Needs(list, s, t) && s.adapter.GitHubDraftPR? ==> t.adapter.GitHubBranch?)
    && (forall s :: s in list ==> s.born < |list|)
  }

  lemma {:induction false} InsertGrows(list: seq<Spec>, s: Spec)
    ensures |Insert(list, s)| == |list| + 1
  {
    if list != [] && !Before(s, list[0]) { InsertGrows(list[1..], s); }
  }

  lemma PrepareBuilds(w: World, id: EffectId, adapter: Adapter, dependsOn: set<EffectId>)
    requires Inv(w) && Built(w.list)
    ensures Built(Prepare(w, id, adapter, dependsOn).w.list)
  {
    hide Insert, Before, EffectsOk, ReleaseOrdered, BackwardIdle, PhaseOk;
    var s := Spec(id, adapter, dependsOn, |w.list|);
    if id !in w.fx && DependenciesAllowed(w, adapter, dependsOn) {
      assert Sorted(w.list) && s.id !in Ids(w.list);
      InsertKeepsOrder(w.list, s);
      InsertGrows(w.list, s);
      var after := Insert(w.list, s);
      forall a, b | Needs(after, a, b)
        ensures b.born < a.born && !a.adapter.GitHubBranch?
        ensures a.adapter.GitHubDraftPR? ==> b.adapter.GitHubBranch?
      {
        assert b == s ==> a != s && a in w.list && id in a.dependsOn;
        assert a in w.list ==> a.dependsOn <= w.fx.Keys;
        if a != s { assert Needs(w.list, a, b); }
      }
    }
  }

  lemma PerformBuilds(w: World, call: Call)
    requires Inv(w) && Built(w.list)
    ensures Built(Perform(w, call).list)
  {
    hide Inv, Built, Prepare, Commit, Recover, Abort, S.Reaches;
    match call
    case CallPrepare(id, adapter, dependsOn) => PrepareBuilds(w, id, adapter, dependsOn);
    case CallCommit(digest) => CommitIsSafe(w, digest);
    case CallRecover => RecoverIsSafe(w);
    case CallAbort => AbortIsSafe(w);
    case _ =>
  }

  /** Whatever is prepared, and in whatever order: the graph is built backwards in time. */
  lemma {:induction false} RunBuilds(steps: seq<Step>)
    ensures Built(Run(steps).list)
  {
    if steps != [] {
      hide Inv, Built, Perform;
      var before := Run(steps[..|steps| - 1]);
      var step := steps[|steps| - 1];
      RunBuilds(steps[..|steps| - 1]);
      RunKeepsInv(steps[..|steps| - 1]);
      InvIgnoresWire(before, before.(wire := step.wire));
      PerformBuilds(before.(wire := step.wire), step.call);
    } else {
      assert Run(steps).list == [];
    }
  }

  /** A chain in which each effect depends on the next. */
  ghost predicate Chain(list: seq<Spec>, path: seq<Spec>) {
    forall i :: 0 < i < |path| ==> Needs(list, path[i - 1], path[i])
  }

  /** No chain of dependencies comes back to where it began. */
  lemma {:induction false} DependenciesAreAcyclic(steps: seq<Step>, path: seq<Spec>)
    requires |path| > 1 && Chain(Run(steps).list, path)
    ensures path[0].born > path[|path| - 1].born && path[0] != path[|path| - 1]
    decreases |path|
  {
    hide Run;
    RunBuilds(steps);
    assert Needs(Run(steps).list, path[|path| - 2], path[|path| - 1]);
    if |path| > 2 {
      var shorter := path[..|path| - 1];
      assert Chain(Run(steps).list, shorter);
      DependenciesAreAcyclic(steps, shorter);
    }
  }

  /**
   * The ledger lists by rank and then by identity, and identities are drawn at random. The list is
   * topological exactly when every Slack message that depends on another has the greater identity.
   */
  lemma ListedOrderExactly(steps: seq<Step>)
    ensures Topological(Run(steps).list) <==>
              forall s, t :: Needs(Run(steps).list, s, t) && s.adapter.SlackMessage? && t.adapter.SlackMessage? ==>
                  t.id < s.id
  {
    hide Run, EffectsOk, ReleaseOrdered, BackwardIdle, PhaseOk;
    RunBuilds(steps);
    var list := Run(steps).list;
    forall s, t | Needs(list, s, t)
      ensures Backward(list, s, t) <==> s.adapter.SlackMessage? && t.adapter.SlackMessage? && s.id <= t.id
    {
      assert t.born < s.born;
    }
    assert forall s, t :: Backward(list, s, t) ==> Needs(list, s, t);
  }

  /** Had it listed by rank and then by age, every list would be topological. */
  predicate BeforeByAge(a: Spec, b: Spec) {
    Rank(a.adapter) < Rank(b.adapter) || (Rank(a.adapter) == Rank(b.adapter) && a.born < b.born)
  }

  lemma AgeOrderIsTopological(steps: seq<Step>, sorted: seq<Spec>, i: nat, j: nat)
    requires forall a, b :: 0 <= a < b < |sorted| ==> BeforeByAge(sorted[a], sorted[b])
    requires forall s :: s in sorted <==> s in Run(steps).list
    requires i < |sorted| && j < |sorted| && sorted[j].id in sorted[i].dependsOn
    ensures j < i
  {
    hide Run;
    RunBuilds(steps);
    assert Needs(Run(steps).list, sorted[i], sorted[j]);
    assert BeforeByAge(sorted[j], sorted[i]);
  }

  /** So a committed transaction is one whose Slack messages happened to be numbered in order. */
  lemma CommittedWasInOrder(steps: seq<Step>)
    requires Run(steps).tx.Committed?
    ensures Topological(Run(steps).list)
  {
    hide Run;
    forall s, t ensures !Backward(Run(steps).list, s, t) {
      if Backward(Run(steps).list, s, t) { BackwardNeverCommits(steps, s, t); }
    }
  }

  /** A preparation that met no error. */
  function Prepared(id: EffectId, dependsOn: set<EffectId>): Step {
    Step(CallPrepare(id, SlackMessage, dependsOn), Wire([], Done))
  }

  /** Two Slack messages, the second a reply to the first, whose identities were drawn the wrong way round. */
  const OUT_OF_ORDER := [Prepared(7, {}), Prepared(3, {7})]

  lemma OutOfOrderList()
    ensures Run(OUT_OF_ORDER).list == [Spec(3, SlackMessage, {7}, 1), Spec(7, SlackMessage, {}, 0)]
  {
    var w0 := NEW_TRANSACTION.(wire := Wire([], Done));
    var w1 := Perform(w0, CallPrepare(7, SlackMessage, {}));
    assert w1.list == [Spec(7, SlackMessage, {}, 0)] && w1.fx.Keys == {7};
    assert OUT_OF_ORDER[..1] == [Prepared(7, {})] && OUT_OF_ORDER[..1][..0] == [];
    assert Run([]) == NEW_TRANSACTION;
    assert Run(OUT_OF_ORDER[..1]) == w1;
    assert Run(OUT_OF_ORDER) == Do(w1, OUT_OF_ORDER[1]);
    assert Insert(w1.list, Spec(3, SlackMessage, {7}, 1)) == [Spec(3, SlackMessage, {7}, 1)] + w1.list;
  }

  /** However that run goes on, it never commits and posts neither message. */
  lemma OutOfOrderNeverCommits(more: seq<Step>)
    ensures var w := Run(OUT_OF_ORDER + more);
            !w.tx.Committed? && Get(w.fx, 3).landed == 0 && Get(w.fx, 7).landed == 0
  {
    hide Run, Perform;
    var steps := OUT_OF_ORDER + more;
    assert steps[..2] == OUT_OF_ORDER;
    OutOfOrderList();
    RunOnlyGrows(steps, 2);
    var s, t := Spec(3, SlackMessage, {7}, 1), Spec(7, SlackMessage, {}, 0);
    assert s in Run(steps).list && t in Run(steps).list;
    assert Backward(Run(steps).list, s, t);
    BackwardNeverCommits(steps, s, t);
    BackwardNeverReleased(steps, s, t);
  }
}
