/** The guard in front of the interface: roles, access to transactions, and capabilities that work once. */
module AuthorizationGuard {
  import opened Wrappers
  import opened Authorization
  import opened Text

  // ---- Capabilities ----

  /** Times and durations in nanoseconds. */
  const MAX_TTL: int := 15 * 60 * 1_000_000_000
  const CLOCK_SKEW: int := 2 * 60 * 1_000_000_000

  datatype Token = Token(
    version: string, id: string, uid: Uid, op: string, resource: string, approver: string, keyId: string,
    issued: int, expires: int, nonce: string, signature: string)

  datatype PublicKey = PublicKey(keyId: string, approver: string, enabled: bool, material: string)

  /** Whether a signature over the rest of a token is right under some key material. */
  type Signatures = (string, Token) -> bool

  /** The first key of that id decides, enabled or not. */
  predicate TrustedAt(ring: seq<PublicKey>, t: Token, k: nat) {
    k < |ring| && ring[k].keyId == t.keyId && forall j :: 0 <= j < k ==> ring[j].keyId != t.keyId
  }

  predicate Genuine(signed: Signatures, ring: seq<PublicKey>, t: Token) {
    exists k :: 0 <= k < |ring| && TrustedAt(ring, t, k) && ring[k].enabled && ring[k].approver == t.approver
        && signed(ring[k].material, t)
  }

  predicate InTime(t: Token, now: int) {
    t.issued <= t.expires && now < t.expires && t.expires - t.issued <= MAX_TTL && t.issued <= now + CLOCK_SKEW
  }

  predicate Valid(signed: Signatures, ring: seq<PublicKey>, t: Token, uid: Uid, op: string, resource: string,
      now: int) {
    && t.version == "1" && t.id != "" && t.nonce != "" && t.keyId != "" && t.approver != ""
    && t.uid == uid && t.op == op && t.resource == resource
    && InTime(t, now) && Genuine(signed, ring, t)
  }

  method Verify(signed: Signatures, ring: seq<PublicKey>, t: Token, uid: Uid, op: string, resource: string,
      now: int) returns (ok: bool)
    ensures ok == Valid(signed, ring, t, uid, op, resource, now)
  {
    if t.version != "1" || t.id == "" || t.nonce == "" || t.keyId == "" || t.approver == "" { return false; }
    if t.uid != uid || t.op != op || t.resource != resource { return false; }
    if t.expires < t.issued || now >= t.expires { return false; }
    if t.expires - t.issued > MAX_TTL { return false; }
    if t.issued > now + CLOCK_SKEW { return false; }
    var k := 0;
    while k < |ring| && ring[k].keyId != t.keyId
      invariant 0 <= k <= |ring|
      invariant forall j :: 0 <= j < k ==> ring[j].keyId != t.keyId
    {
      k := k + 1;
    }
    if k == |ring| { return false; }
    assert TrustedAt(ring, t, k);
    OneTrusted(ring, t, k);
    if !ring[k].enabled { return false; }
    if ring[k].approver != t.approver { return false; }
    ok := signed(ring[k].material, t);
  }

  lemma OneTrusted(ring: seq<PublicKey>, t: Token, k: nat)
    requires TrustedAt(ring, t, k)
    ensures forall j :: TrustedAt(ring, t, j) ==> j == k
  {
  }

  /** The key that decides about a key id: the first one of that id. */
  function KeyFor(ring: seq<PublicKey>, id: string): Option<PublicKey> {
    if ring == [] then None else if ring[0].keyId == id then Some(ring[0]) else KeyFor(ring[1..], id)
  }

  /** The deciding key is enabled, belongs to the approver, and confirms the signature. */
  predicate Attested(signed: Signatures, ring: seq<PublicKey>, t: Token) {
    var key := KeyFor(ring, t.keyId);
    key.Some? && key.value.enabled && key.value.approver == t.approver && signed(key.value.material, t)
  }

  lemma {:induction false} KeyForIsFirst(ring: seq<PublicKey>, t: Token)
    ensures KeyFor(ring, t.keyId).Some? <==> exists k :: 0 <= k < |ring| && TrustedAt(ring, t, k)
    ensures forall k :: 0 <= k < |ring| && TrustedAt(ring, t, k) ==> KeyFor(ring, t.keyId) == Some(ring[k])
  {
    if ring != [] {
      KeyForIsFirst(ring[1..], t);
      if ring[0].keyId == t.keyId {
        assert TrustedAt(ring, t, 0);
      } else {
        forall k | 0 < k < |ring| ensures TrustedAt(ring, t, k) <==> TrustedAt(ring[1..], t, k - 1) {
          assert TrustedAt(ring, t, k) ==> forall j :: 0 <= j < k - 1 ==> ring[1..][j].keyId == ring[j + 1].keyId;
          if TrustedAt(ring[1..], t, k - 1) {
            forall j | 0 <= j < k ensures ring[j].keyId != t.keyId { assert j > 0 ==> ring[1..][j - 1] == ring[j]; }
          }
        }
        if k :| 0 <= k < |ring[1..]| && TrustedAt(ring[1..], t, k) { assert TrustedAt(ring, t, k + 1); }
      }
    }
  }

  lemma GenuineExactly(signed: Signatures, ring: seq<PublicKey>, t: Token)
    ensures Genuine(signed, ring, t) <==> Attested(signed, ring, t)
  {
    KeyForIsFirst(ring, t);
  }

  // ---- Signing ----

  const SECOND: int := 1_000_000_000

  /** Times are cut to whole seconds. */
  function WholeSeconds(time: int): int { time - time % SECOND }

  datatype PrivateKey = PrivateKey(keyId: string, approver: string, publicKey: string, matches: bool)

  /** The token but for its signature; its identity and its nonce are drawn at random. */
  function Unsigned(key: PrivateKey, uid: Uid, op: string, resource: string, ttl: int, now: int, id: string,
      nonce: string): Token
  {
    Token("1", "cap-" + id, uid, Trimmed(op), Trimmed(resource), key.approver, key.keyId,
          WholeSeconds(now), WholeSeconds(now + ttl), nonce, "")
  }

  /** Signing with a key: what ed25519 makes of the rest of a token is a parameter. */
  method Sign(mark: Token -> string, key: PrivateKey, uid: Uid, op: string, resource: string, ttl: int, now: int,
      id: string, nonce: string) returns (t: Option<Token>)
    ensures t.Some? <==> !AllSpace(op) && 0 < ttl <= 900_000_000_000 && key.matches
    ensures t.Some? ==>
              var u := Unsigned(key, uid, op, resource, ttl, now, id, nonce); t.value == u.(signature := mark(u))
  {
    BlankExactly(op);
    if Trimmed(op) == "" { return None; }
    if ttl <= 0 || ttl > MAX_TTL { return None; }
    if !key.matches { return None; }
    var u := Unsigned(key, uid, op, resource, ttl, now, id, nonce);
    t := Some(u.(signature := mark(u)));
  }

  lemma WholeSecondsAreClose(now: int, ttl: int)
    requires 0 < ttl <= 900_000_000_000
    ensures WholeSeconds(now) <= WholeSeconds(now + ttl) <= WholeSeconds(now) + 900_000_000_000
    ensures now - 1_000_000_000 < WholeSeconds(now) <= now
  {
    assert 900_000_000_000 % SECOND == 0;
    var a, b := now / SECOND, (now + ttl) / SECOND;
    assert WholeSeconds(now) == a * SECOND && WholeSeconds(now + ttl) == b * SECOND;
    assert a <= b <= a + 900;
  }

  /**
   * A capability that was signed with a key the ring trusts is valid for exactly its user, operation and
   * resource, from two minutes before its issue to its expiry, both cut to whole seconds; so one that is
   * to live for less than a second may have expired when it is made.
   */
  lemma SignedIsValidExactly(signed: Signatures, ring: seq<PublicKey>, key: PrivateKey, t: Token, uid: Uid, op: string,
      resource: string, ttl: int, now: int, id: string, nonce: string, asUid: Uid, asOp: string, asResource: string,
      later: int)
    requires 0 < ttl <= 900_000_000_000 && nonce != ""
    requires t == Unsigned(key, uid, op, resource, ttl, now, id, nonce).(signature := t.signature)
    requires signed(key.publicKey, t)
    requires KeyFor(ring, key.keyId) == Some(PublicKey(key.keyId, key.approver, true, key.publicKey))
    ensures Valid(signed, ring, t, asUid, asOp, asResource, later) <==>
              && key.keyId != "" && key.approver != ""
              && asUid == uid && asOp == Trimmed(op) && asResource == Trimmed(resource)
              && WholeSeconds(now) - 120_000_000_000 <= later < WholeSeconds(now + ttl)
  {
    hide Genuine, Trimmed, KeyFor, WholeSeconds;
    GenuineExactly(signed, ring, t);
    WholeSecondsAreClose(now, ttl);
  }

  // ---- Access to a transaction ----

  datatype Access = AccessRead | AccessOperate | AccessAdmin

  const ADMIN_OPERATIONS := {
    "transaction_access_list", "transaction_access_grant", "transaction_access_revoke", "approval_material",
    "transaction_approve", "transaction_commit", "transaction_recover", "transaction_abort"
  }

  function AccessFor(op: string, meth: string): Access {
    if op in ADMIN_OPERATIONS then AccessAdmin
    else if meth == "GET" || meth == "HEAD" then AccessRead
    else AccessOperate
  }

  datatype Slot = Slot(resource: string, principal: string)

  /** Who owns a transaction, and what others have been granted on it: reading, or reading and operating. */
  datatype Sharing = Sharing(owners: map<string, string>, grants: map<Slot, Access>)

  function CheckAccess(s: Sharing, resource: string, principal: string, required: Access): bool {
    if resource !in s.owners then false
    else if s.owners[resource] == principal then true
    else if required.AccessAdmin? then false
    else if Slot(resource, principal) !in s.grants then false
    else var granted := s.grants[Slot(resource, principal)];
      if required.AccessRead? then granted.AccessRead? || granted.AccessOperate? else granted.AccessOperate?
  }

  /** The operations by which one decides about a transaction. */
  predicate Decides(op: string) {
    || op == "transaction_access_list" || op == "transaction_access_grant" || op == "transaction_access_revoke"
    || op == "approval_material" || op == "transaction_approve" || op == "transaction_commit"
    || op == "transaction_recover" || op == "transaction_abort"
  }

  /**
   * Who may do what with a transaction that exists: its owner everything, and of the others, but for what
   * decides about it, those who were granted operating, and for reading those who were granted reading.
   */
  lemma AccessIsExact(s: Sharing, resource: string, principal: string, op: string, meth: string)
    ensures CheckAccess(s, resource, principal, AccessFor(op, meth)) <==>
              && resource in s.owners
              && (s.owners[resource] == principal
                  || (!Decides(op) && Slot(resource, principal) in s.grants
                      && var granted := s.grants[Slot(resource, principal)];
                         granted.AccessOperate? || (granted.AccessRead? && (meth == "GET" || meth == "HEAD"))))
  {
  }

  // ---- The guard ----

  /** What a request brings: who asks for what, the capability it carries, and how the ledger answers. */
  datatype Request = Request(
    uid: Option<Uid>, principal: string, op: string, meth: string, resource: string,
    capability: Header, now: int, ledger: Fate)

  /** The capability header: none, one that cannot be decoded, or a token. */
  datatype Header = NoHeader | Garbled | Carries(token: Token)

  datatype Verdict = ByRole | ByCapability(id: string) | NoIdentity | BadCapability | NotVisible | Denied

  /** What the guard works with; the access check may fail, and then denies. */
  datatype Setting = Setting(
    ops: Operations, authorizer: Authorizer, signed: Signatures, ring: seq<PublicKey>, sharing: Sharing,
        accessAnswers: bool)

  datatype Decided = Decided(allowed: bool, all: bool)

  /** The role decision, by the tables. */
  function ByTables(e: Setting, uid: Uid, op: string): Decided {
    var known := op in e.ops && uid in e.authorizer.bindings;
    Decided(known && exists n :: n in e.authorizer.bindings[uid] && TableGrants(e.authorizer, n, op),
            known && exists n :: n in e.authorizer.bindings[uid] && TableGrants(e.authorizer, n, op) && TableAll(e.authorizer, n))
  }

  predicate Reaches(e: Setting, r: Request, all: bool) {
    r.resource == "" || all || (e.accessAnswers && CheckAccess(e.sharing, r.resource, r.principal, AccessFor(r.op, r.meth)))
  }

  datatype Guarded = Guarded(used: set<string>, verdict: Verdict)

  /** A capability is tried only where a role does not help, and never for what agents may do anyway. */
  function Judge(e: Setting, used: set<string>, r: Request): Guarded {
    if r.uid.None? then Guarded(used, NoIdentity) else
    var d := ByTables(e, r.uid.value, r.op);
    if d.allowed && Reaches(e, r, d.all) then Guarded(used, ByRole)
    else if r.op in e.ops && !e.ops[r.op] && !r.capability.NoHeader? then
      if r.capability.Garbled? then Guarded(used, BadCapability) else
      var t := r.capability.token;
      if !Valid(e.signed, e.ring, t, r.uid.value, r.op, r.resource, r.now) || r.principal == "" || r.op == "" || t.id in used then
        Guarded(used, BadCapability)
      else match r.ledger
        case Acknowledged => Guarded(used + {t.id}, ByCapability(t.id))
        case Unacknowledged => Guarded(used + {t.id}, BadCapability)
        case NotMade => Guarded(used, BadCapability)
    else Guarded(used, if d.allowed then NotVisible else Denied)
  }

  class Guard {
    /** The capabilities that were consumed. */
    var used: set<string>

    constructor ()
      ensures used == {}
    {
      used := {};
    }

    /** A capability is consumed before the request is let through; once, whoever brings it. */
    method Consume(id: string, principal: string, op: string, fate: Fate) returns (ok: bool)
      modifies this
      ensures var fits := id != "" && principal != "" && op != "" && id !in old(used);
              && ok == (fits && fate.Acknowledged?)
              && used == if fits && !fate.NotMade? then old(used) + {id} else old(used)
    {
      if id == "" || principal == "" || op == "" || id in used || fate.NotMade? { return false; }
      used := used + {id};
      ok := fate.Acknowledged?;
    }

    method Handle(e: Setting, r: Request) returns (verdict: Verdict)
      modifies this
      ensures Guarded(used, verdict) == Judge(e, old(used), r)
    {
      hide TableGrants, TableAll, CheckAccess, Genuine, InTime;
      if r.uid.None? { return NoIdentity; }
      var uid := r.uid.value;
      var d := Decide(e.ops, e.authorizer, uid, r.op);
      var resourceAllowed := r.resource == "" || d.all;
      if d.allowed && !resourceAllowed {
        resourceAllowed := e.accessAnswers && CheckAccess(e.sharing, r.resource, r.principal, AccessFor(r.op, r.meth));
      }
      if d.allowed && resourceAllowed { return ByRole; }
      if r.op in e.ops && !e.ops[r.op] && !r.capability.NoHeader? {
        if r.capability.Garbled? { return BadCapability; }
        var t := r.capability.token;
        var ok := Verify(e.signed, e.ring, t, uid, r.op, r.resource, r.now);
        if ok {
          ok := Consume(t.id, r.principal, r.op, r.ledger);
          if ok { return ByCapability(t.id); }
        }
        return BadCapability;
      }
      verdict := if d.allowed then NotVisible else Denied;
    }
  }

  // ---- Runs ----

  /** The capabilities consumed by a sequence of requests, each in its own setting. */
  datatype Visit = Visit(setting: Setting, request: Request)

  function UsedAfter(visits: seq<Visit>): set<string> {
    if visits == [] then {} else
    var v := visits[|visits| - 1];
    Judge(v.setting, UsedAfter(visits[..|visits| - 1]), v.request).used
  }

  function VerdictAt(visits: seq<Visit>, i: nat): Verdict
    requires i < |visits|
  {
    Judge(visits[i].setting, UsedAfter(visits[..i]), visits[i].request).verdict
  }

  lemma UsedStep(visits: seq<Visit>, i: nat)
    requires i < |visits|
    ensures UsedAfter(visits[..i + 1]) == Judge(visits[i].setting, UsedAfter(visits[..i]), visits[i].request).used
  {
    assert visits[..i + 1][..i] == visits[..i];
  }

  lemma {:induction false} UsedOnlyGrows(visits: seq<Visit>, i: nat, j: nat)
    requires i <= j <= |visits|
    ensures UsedAfter(visits[..i]) <= UsedAfter(visits[..j])
    decreases j - i
  {
    hide UsedAfter, Valid, ByTables, Reaches;
    if i < j {
      UsedOnlyGrows(visits, i, j - 1);
      UsedStep(visits, j - 1);
    }
  }

  /**
   * Over any run, a capability lets one request through at most, whatever policy, keys and sharing are
   * in force at each request, and whatever answers get lost.
   */
  lemma CapabilityWorksOnce(visits: seq<Visit>, i: nat, j: nat, id: string)
    requires i < j < |visits| && VerdictAt(visits, i) == ByCapability(id)
    ensures VerdictAt(visits, j) != ByCapability(id)
  {
    hide UsedAfter, Valid, ByTables, Reaches;
    UsedStep(visits, i);
    UsedOnlyGrows(visits, i + 1, j);
  }

  /** And it lets through only its own user, operation and resource, before it expires, for 15 minutes at most. */
  lemma CapabilityFits(visits: seq<Visit>, i: nat, id: string)
    requires i < |visits| && VerdictAt(visits, i) == ByCapability(id)
    ensures var e, r := visits[i].setting, visits[i].request;
            && r.capability.Carries? && r.uid.Some?
            && var t := r.capability.token;
               && t.id == id && t.uid == r.uid.value && t.op == r.op && t.resource == r.resource
               && r.now < t.expires <= t.issued + 900_000_000_000 && t.issued <= r.now + 120_000_000_000
               && Attested(e.signed, e.ring, t)
               && r.op in e.ops && !e.ops[r.op]
  {
    hide UsedAfter, ByTables, Reaches, Genuine, Attested;
    GenuineExactly(visits[i].setting.signed, visits[i].setting.ring, visits[i].request.capability.token);
  }

  /** A request that a role lets through leaves its capability unused. */
  lemma RoleSparesCapability(e: Setting, used: set<string>, r: Request)
    ensures Judge(e, used, r).used != used ==>
              r.capability.Carries? && Judge(e, used, r).used == used + {r.capability.token.id}
                  && !Judge(e, used, r).verdict.ByRole?
  {
    hide Valid, ByTables, Reaches;
  }

  // ---- The verdict, by the policy as written ----

  /** A role of the user grants the operation, and the resource is open to the request. */
  ghost predicate PassesByRole(e: Setting, p: Policy, r: Request) {
    && r.uid.Some? && Allowed(e.ops, p, r.uid.value, r.op)
    && (r.resource == "" || AllowedOnAll(e.ops, p, r.uid.value, r.op)
        || (e.accessAnswers && CheckAccess(e.sharing, r.resource, r.principal, AccessFor(r.op, r.meth))))
  }

  /** A capability is looked at: it is there, no role helps, and the operation is known and not for agents. */
  ghost predicate TriesCapability(e: Setting, p: Policy, r: Request) {
    r.uid.Some? && !PassesByRole(e, p, r) && !r.capability.NoHeader? && r.op in e.ops && !e.ops[r.op]
  }

  /** The capability is for just this request, in time, attested, and not used up. */
  predicate Redeemable(e: Setting, used: set<string>, r: Request) {
    && r.capability.Carries? && r.uid.Some?
    && var t := r.capability.token;
       && t.version == "1" && t.id != "" && t.nonce != "" && t.keyId != "" && t.approver != ""
       && t.uid == r.uid.value && t.op == r.op != "" && t.resource == r.resource && r.principal != ""
       && t.issued <= t.expires <= t.issued + 900_000_000_000
       && t.issued - 120_000_000_000 <= r.now < t.expires
       && Attested(e.signed, e.ring, t)
       && t.id !in used
  }

  lemma RedeemableExactly(e: Setting, used: set<string>, r: Request)
    requires r.capability.Carries? && r.uid.Some?
    ensures var t := r.capability.token;
            Redeemable(e, used, r) <==>
              && Valid(e.signed, e.ring, t, r.uid.value, r.op, r.resource, r.now)
              && r.principal != "" && r.op != "" && t.id !in used
  {
    hide Genuine, Attested;
    GenuineExactly(e.signed, e.ring, r.capability.token);
  }

  /**
   * The guard as a whole, under an accepted policy: which requests pass by role, which by their
   * capability, and why the others do not pass.
   */
  lemma JudgedExactly(e: Setting, p: Policy, used: set<string>, r: Request)
    requires Acceptable(e.ops, p) && Compiled(e.ops, p, e.authorizer)
    ensures var v := Judge(e, used, r).verdict;
            var tries := TriesCapability(e, p, r);
            && (v.NoIdentity? <==> r.uid.None?)
            && (v.ByRole? <==> PassesByRole(e, p, r))
            && (v.ByCapability? <==> tries && Redeemable(e, used, r) && r.ledger.Acknowledged?)
            && (v.ByCapability? ==> v.id == r.capability.token.id)
            && (v.BadCapability? <==> tries && !(Redeemable(e, used, r) && r.ledger.Acknowledged?))
            && (v.NotVisible? <==>
                  r.uid.Some? && !PassesByRole(e, p, r) && !tries && Allowed(e.ops, p, r.uid.value, r.op))
            && (v.Denied? <==> r.uid.Some? && !tries && !Allowed(e.ops, p, r.uid.value, r.op))
  {
    hide Acceptable, Compiled, Allowed, AllowedOnAll, TableGrants, TableAll, CheckAccess, Valid, Redeemable;
    if r.uid.Some? {
      TablesMeanPolicy(e.ops, p, e.authorizer, r.uid.value, r.op);
      if r.capability.Carries? { RedeemableExactly(e, used, r); }
    }
    assert Redeemable(e, used, r) ==> r.capability.Carries? && r.uid.Some? by { RedeemsAToken(e, used, r); }
  }

  lemma RedeemsAToken(e: Setting, used: set<string>, r: Request)
    ensures Redeemable(e, used, r) ==> r.capability.Carries? && r.uid.Some?
  {
    hide Attested;
  }

  /** A capability is used up exactly if it is looked at, is good, and the ledger makes the write, seen or not. */
  lemma ConsumedExactly(e: Setting, p: Policy, used: set<string>, r: Request)
    requires Acceptable(e.ops, p) && Compiled(e.ops, p, e.authorizer)
    ensures Judge(e, used, r).used ==
              if TriesCapability(e, p, r) && Redeemable(e, used, r) && !r.ledger.NotMade? then
                used + {r.capability.token.id}
              else used
  {
    hide Acceptable, Compiled, Allowed, AllowedOnAll, TableGrants, TableAll, CheckAccess, Valid, Redeemable;
    if r.uid.Some? {
      TablesMeanPolicy(e.ops, p, e.authorizer, r.uid.value, r.op);
      if r.capability.Carries? { RedeemableExactly(e, used, r); }
    }
    RedeemsAToken(e, used, r);
  }
}
