/**
 * What a coordinator can see and change: one transaction's rows in the ledger, the providers'
 * copies of its external effects, and the integration ref in the git repository.
 *
 * Every call the coordinator makes on that world consumes one reply of a script. A reply says
 * whether the call took effect and whether the caller learned it. When the script is used up every
 * later call gets the reply `rest`. A process that dies is `rest == Refused`: from then on nothing
 * changes and nothing is learned. A world in good order is `rest == Done`.
 */
module CommitWorld {
  import opened Wrappers
  import S = TransactionStates

  datatype Adapter = GitHubBranch | GitHubDraftPR | SlackMessage

  function Rank(adapter: Adapter): nat {
    match adapter
    case GitHubBranch => 100
    case GitHubDraftPR => 200
    case SlackMessage => 300
  }

  /** Effect identities, in the order in which the ledger compares them. They are drawn at random. */
  type EffectId = nat

  /** The part of an effect that never changes; born counts the effects prepared before it. */
  datatype Spec = Spec(id: EffectId, adapter: Adapter, dependsOn: set<EffectId>, born: nat)

  datatype EffectStatus = Prepared | Verified | Committing | Unknown | Committed | Aborted | Failed

  /**
   * landed counts the mutations the provider carried out for us, over the whole life of the effect.
   * elsewhere says that the same resource is at the provider for another reason.
   */
  datatype Effect = Effect(status: EffectStatus, receipt: bool, landed: nat, elsewhere: bool) {
    predicate Present() { landed > 0 || elsewhere }

    predicate Attempted() { status.Committing? || status.Unknown? || status.Committed? }

    /** Not attempted, and free to be. */
    predicate Waiting() { status.Verified? || status.Prepared? }

    /** Attempted, with an outcome still to be learned. */
    predicate Unresolved() { status.Committing? || status.Unknown? }
  }

  /**
   * Done: carried out and acknowledged. Unseen: carried out, but the caller gets an error that does
   * not say so. Silent: not carried out, and the error does not say so. Refused: not carried out, and
   * the error says so. Moved: the resource is not in the state the caller prepared for.
   */
  datatype Reply = Done | Unseen | Silent | Refused | Moved

  type Effects = map<EffectId, Effect>

  /** An effect's row. Identities that name no effect read as a failed one. */
  function Get(fx: Effects, id: EffectId): Effect {
    if id in fx then fx[id] else Effect(Failed, false, 0, false)
  }

  datatype Wire = Wire(script: seq<Reply>, rest: Reply) {
    function Next(): Reply {
      if script == [] then rest else script[0]
    }

    function Tail(): Wire {
      if script == [] then this else Wire(script[1..], rest)
    }
  }

  /** The digest that was approved; epoch stands for the digest of the present material. */
  datatype Approval = Approval(epoch: nat, digest: Option<nat>)

  /** The source branch has not moved; the integration ref is there, was removed by others, is recorded. */
  datatype Repository = Repository(pinned: bool, ref: bool, removed: bool, recorded: bool)

  datatype World = World(
    wire: Wire, tx: S.State, approval: Approval, repo: Repository, list: seq<Spec>, fx: Effects)

  /** The world a call leaves, and whether it returned without error. */
  datatype Out = Out(w: World, ok: bool)

  function Tick(w: World): World { w.(wire := w.wire.Tail()) }

  // ---- The ledger ----

  /** A query that changes nothing: it answers or it fails. */
  function Read(w: World): Out {
    Out(Tick(w), w.wire.Next().Done?)
  }

  /**
   * A write that the ledger makes only when its own check passes. It may fail, and it may be made and
   * still report a failure.
   */
  function Write(w: World, check: bool, target: World): Out {
    if check && (w.wire.Next().Done? || w.wire.Next().Unseen?) then
      Out(target.(wire := w.wire.Tail()), w.wire.Next().Done?)
    else
      Out(Tick(w), false)
  }

  function Transition(w: World, from: S.State, to: S.State, invalidate: bool): Out {
    Write(w, S.CanTransition(from, to) && w.tx == from,
          w.(tx := to, approval := if invalidate then w.approval.(digest := None) else w.approval))
  }

  function MarkNeedsReconciliation(w: World): Out {
    Transition(w, w.tx, S.NeedsReconciliation, false)
  }

  predicate AllCommitReady(fx: Effects) {
    forall id :: id in fx ==> fx[id].status.Verified? || fx[id].status.Committed?
  }

  predicate AllCommitted(fx: Effects) {
    forall id :: id in fx ==> fx[id].status.Committed?
  }

  function BeginCommit(w: World, digest: nat): Out {
    Write(w, w.tx.Ready? && w.approval.digest == Some(digest) && AllCommitReady(w.fx), w.(tx := S.Committing))
  }

  predicate InCommit(w: World) {
    w.tx.Committing? || w.tx.NeedsReconciliation?
  }

  function SetEffect(w: World, id: EffectId, e: Effect): World {
    w.(fx := w.fx[id := e])
  }

  function BeginCommitAttempt(w: World, id: EffectId): Out {
    Write(w, InCommit(w) && id in w.fx && w.fx[id].Waiting(),
          SetEffect(w, id, Get(w.fx, id).(status := Committing)))
  }

  function BeginStatusAttempt(w: World, id: EffectId): Out {
    Write(w, InCommit(w) && id in w.fx && w.fx[id].Unresolved(), w)
  }

  function MarkEffectUnknown(w: World, id: EffectId): Out {
    Write(w, id in w.fx, SetEffect(w, id, Get(w.fx, id).(status := Unknown)))
  }

  function MarkEffectDefiniteFailure(w: World, id: EffectId): Out {
    Write(w, id in w.fx, SetEffect(w, id, Get(w.fx, id).(status := Verified)))
  }

  function RearmEffect(w: World, id: EffectId): Out {
    Write(w, id in w.fx, SetEffect(w, id, Get(w.fx, id).(status := Verified)))
  }

  function RecordEffectCommitted(w: World, id: EffectId): Out {
    Write(w, id in w.fx, SetEffect(w, id, Get(w.fx, id).(status := Committed, receipt := true)))
  }

  function RecordMaterializedRef(w: World): Out {
    Write(w, InCommit(w), w.(repo := w.repo.(recorded := true)))
  }

  function FinalizeTransactionCommit(w: World): Out {
    Write(w, InCommit(w) && w.repo.recorded && AllCommitted(w.fx), w.(tx := S.Committed))
  }

  function Dropped(fx: Effects): Effects {
    map id | id in fx :: if fx[id].Waiting() then fx[id].(status := Aborted) else fx[id]
  }

  function AbortPreparedEffects(w: World): Out {
    Write(w, w.tx.Aborting?, w.(fx := Dropped(w.fx)))
  }

  /** The order in which the ledger lists effects: by commit rank, then by identity. */
  predicate Before(a: Spec, b: Spec) {
    Rank(a.adapter) < Rank(b.adapter) || (Rank(a.adapter) == Rank(b.adapter) && a.id < b.id)
  }

  function Insert(list: seq<Spec>, s: Spec): seq<Spec> {
    if list == [] || Before(s, list[0]) then [s] + list else [list[0]] + Insert(list[1..], s)
  }

  // ---- The repository: what a query answers now; the query itself is a Tick ----

  datatype RefAnswer = RefPresent | RefAbsent | RefError

  /** A failing rev-parse reads as an absent ref; a ref with another tree is an error. */
  function InspectRef(w: World): RefAnswer {
    match w.wire.Next()
    case Done => if w.repo.ref then RefPresent else RefAbsent
    case Silent => RefAbsent
    case _ => RefError
  }

  /** Creates the ref; an existing ref or a moved source makes it fail. */
  function Materialize(w: World): Out {
    Write(w, w.repo.pinned && !w.repo.ref, w.(repo := w.repo.(ref := true)))
  }

  datatype PinAnswer = IsPinned | HasMoved | PinError

  function SourcePinned(w: World): PinAnswer {
    if !w.wire.Next().Done? then PinError else if w.repo.pinned then IsPinned else HasMoved
  }

  // ---- The providers: likewise ----

  datatype StatusAnswer = Found | NotFound | Conflict | NoAnswer

  /** A status query that answers tells the truth. Only a branch can be found in conflict. */
  function QueryStatus(w: World, s: Spec): StatusAnswer {
    match w.wire.Next()
    case Done => if Get(w.fx, s.id).Present() then Found else NotFound
    case Moved => if s.adapter.GitHubBranch? then Conflict else NoAnswer
    case _ => NoAnswer
  }

  datatype FreshAnswer = Fresh | StaleResource | FreshError

  /** A read of the resource versions that the effect was prepared against. */
  function VerifyFresh(w: World): FreshAnswer {
    match w.wire.Next() case Done => Fresh case Moved => StaleResource case _ => FreshError
  }

  datatype MutationAnswer = GotReceipt | Ambiguous | Rejected

  /** The one call that acts at a provider: what the caller is told ... */
  function MutationReply(w: World): MutationAnswer {
    match w.wire.Next()
    case Done => GotReceipt
    case Unseen => Ambiguous
    case Silent => Ambiguous
    case _ => Rejected
  }

  /** ... and what is done. A rejection means that nothing was. */
  function Mutate(w: World, id: EffectId): World {
    if w.wire.Next().Done? || w.wire.Next().Unseen? then
      var e := Get(w.fx, id);
      SetEffect(Tick(w), id, e.(landed := e.landed + 1))
    else Tick(w)
  }
}
