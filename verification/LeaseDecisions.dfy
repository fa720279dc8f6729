/**
 Exactly when each lease command is admitted, and what record it leaves, in terms of the stored facts alone.
 */
module LeaseDecisions {
  import opened Options
  import opened WriteScopes
  import opened CanonicalScopes
  import opened TaskLease
  import opened TodoLifecycle
  import opened LeaseSteps
  import opened LeaseRuns

  const GENERATION_LIMIT: nat := 9007199254740991

  /** The agent may execute the Todo, in positive terms. */
  predicate Eligible(g: Goal, id: TodoId, owner: Agent) {
    && id in g.todos && !g.todos[id].archived && g.todos[id].status == "open"
    && owner != "" && owner in g.registered && owner !in g.todos[id].excluded
    && (g.todos[id].claimedBy.None? || g.todos[id].claimedBy.value == owner) && g.todos[id].taskClass != Some("user_action")
  }

  lemma EligibleIff(g: Goal, id: TodoId, owner: Agent)
    ensures OwnerRejection(TodoOf(g, id), owner, g.registered).None? <==> Eligible(g, id, owner)
  {
  }

  /** A lease holds while it is unreleased, unexpired, and its owner eligible. */
  lemma HoldsIff(g: Goal, id: TodoId)
    ensures Holds(g, id) <==>
            id in g.leases && !g.leases[id].released && g.now < g.leases[id].expiresAt && Eligible(g, id, g.leases[id].owner)
  {
  }

  /** Each reason for refusing an owner is true of the Todo. */
  lemma OwnerRefusalsAreTrue(g: Goal, id: TodoId, owner: Agent)
    requires OwnerRejection(TodoOf(g, id), owner, g.registered).Some?
    ensures match OwnerRejection(TodoOf(g, id), owner, g.registered).value
            case TodoNotFound => id !in g.todos || g.todos[id].archived
            case TodoNotOpen => id in g.todos && g.todos[id].status != "open"
            case InvalidOwner => owner == ""
            case OwnerNotRegistered => owner !in g.registered
            case OwnerExcluded => id in g.todos && owner in g.todos[id].excluded
            case OwnerConflictsWithClaim => id in g.todos && g.todos[id].claimedBy.Some? && g.todos[id].claimedBy.value != owner
            case TodoNotExecutable => id in g.todos && g.todos[id].taskClass == Some("user_action")
            case _ => false
  {
  }

  // ---------- acquire ----------

  predicate OneCheckout(a: Option<Workspace>, b: Option<Workspace>) {
    a.Some? && b.Some? && a.value.host == b.value.host && a.value.worktree == b.value.worktree
  }

  predicate MaybeOneRepository(names: Naming, a: Option<string>, b: Option<string>) {
    a.Some? && b.Some? ==> names.lower(a.value) == names.lower(b.value)
  }

  predicate SameRepository(names: Naming, a: Option<string>, b: Option<string>) {
    a.Some? && b.Some? && names.lower(a.value) == names.lower(b.value)
  }

  /** Another holder works where the command wants to, on an overlapping scope. */
  ghost predicate InTheWay(names: Naming, g: Goal, c: Acquire, id: TodoId)
    requires c.todoId in g.todos
  {
    && id != c.todoId && Holds(g, id)
    && (|| OneCheckout(c.workspace, g.leases[id].workspace)
        || (c.workspace.None? && MaybeOneRepository(names, g.todos[c.todoId].repository, g.leases[id].repository)))
    && SomePairOverlaps(names.fold, Comparison(c.scopes), Comparison(g.leases[id].scopes))
  }

  /** The command fits the Todo's own lease record: nobody holds it, the key is new, the version expected, the counters not spent. */
  predicate RecordAdmits(g: Goal, c: Acquire) {
    && !Holds(g, c.todoId)
    && (c.todoId in g.leases ==>
          && g.leases[c.todoId].key != c.key
          && g.leases[c.todoId].version < GENERATION_LIMIT && g.leases[c.todoId].epoch < GENERATION_LIMIT)
    && (c.expectedVersion.Some? ==> c.expectedVersion.value == if c.todoId in g.leases then g.leases[c.todoId].version else 0)
  }

  ghost predicate AcquireFits(names: Naming, g: Goal, c: Acquire) {
    && g.mode.HardLease? && Eligible(g, c.todoId, c.owner) && RecordAdmits(g, c)
    && (c.workspace.Some? ==> SameRepository(names, Some(c.workspace.value.repository), g.todos[c.todoId].repository))
    && forall id :: !InTheWay(names, g, c, id)
  }

  /** An acquire is admitted exactly when it fits. */
  lemma AcquireAppliesIff(names: Naming, g: Goal, c: Acquire)
    ensures DecideAcquire(names, g, c).Apply? <==> AcquireFits(names, g, c)
  {
    hide Comparison, SomePairOverlaps, Holds;
    EligibleIff(g, c.todoId, c.owner);
    if c.todoId in g.todos {
      BlockedIff(names, g, c);
    }
    hide BlocksAcquire, InTheWay;
  }

  lemma BlockedIff(names: Naming, g: Goal, c: Acquire)
    requires c.todoId in g.todos
    ensures (exists id :: id in g.leases && BlocksAcquire(names, g, c, g.todos[c.todoId].repository, id)) <==>
            (exists id :: InTheWay(names, g, c, id))
  {
    hide Comparison, SomePairOverlaps, Holds;
    HoldersHaveLeases(g);
    if id :| id in g.leases && BlocksAcquire(names, g, c, g.todos[c.todoId].repository, id) {
      assert InTheWay(names, g, c, id);
    }
    if id :| InTheWay(names, g, c, id) {
      assert BlocksAcquire(names, g, c, g.todos[c.todoId].repository, id);
    }
  }

  /** The lease runs until the requested time after now, cut to the second. */
  predicate RunsFor(now: nat, ttl: nat, expiresAt: int) {
    expiresAt % 1000 == 0 && expiresAt <= now + 1000 * ttl < expiresAt + 1000
  }

  /** The record an admitted acquire leaves. */
  lemma AcquiredRecord(names: Naming, g: Goal, c: Acquire)
    requires DecideAcquire(names, g, c).Apply?
    ensures var l := DecideAcquire(names, g, c).next;
            && l.owner == c.owner && l.key == c.key && l.ttl == c.ttl && l.workspace == c.workspace && !l.released
            && l.scopes == Comparison(c.scopes) && l.repository == g.todos[c.todoId].repository
            && l.version == 1 + (if c.todoId in g.leases then g.leases[c.todoId].version else 0)
            && l.epoch == 1 + (if c.todoId in g.leases then g.leases[c.todoId].epoch else 0)
            && RunsFor(g.now, 0, l.acquiredAt) && RunsFor(g.now, c.ttl, l.expiresAt)
  {
    hide Comparison, Holds, BlocksAcquire;
  }

  /** The lease names a repository that is not, or no longer, the Todo's. */
  predicate Moved(names: Naming, g: Goal, id: TodoId) {
    && id in g.todos && id in g.leases && g.leases[id].repository.Some?
    && !SameRepository(names, g.leases[id].repository, g.todos[id].repository)
  }

  /** Each other answer is true of the head. */
  lemma AcquireRefusalsAreTrue(names: Naming, g: Goal, c: Acquire)
    ensures match DecideAcquire(names, g, c)
            case Conflict(VersionMismatch) => c.expectedVersion.Some? && c.expectedVersion.value != VersionOf(LeaseOf(g, c.todoId))
            case Conflict(TodoLeaseConflict) =>
              Holds(g, c.todoId) && (g.leases[c.todoId].owner != c.owner || g.leases[c.todoId].key != c.key)
            case Conflict(WriteScopeConflict) => c.todoId in g.todos && exists id :: InTheWay(names, g, c, id)
            case NoChange(AcquireReplay) =>
              && Holds(g, c.todoId) && g.leases[c.todoId].owner == c.owner && g.leases[c.todoId].key == c.key
              && g.leases[c.todoId].ttl == c.ttl && g.leases[c.todoId].workspace == c.workspace
              && (forall s :: s in Comparison(g.leases[c.todoId].scopes) <==> s in Comparison(c.scopes))
            case Rejected(KeyReuse) => c.todoId in g.leases && g.leases[c.todoId].key == c.key
            case Rejected(ModeForbidsLease) => g.mode.SoftClaim?
            case Rejected(ModeRetired) => g.mode.Legacy?
            case Rejected(RepositoryDivergence) => Holds(g, c.todoId) && Moved(names, g, c.todoId)
            case Rejected(WorkspaceMismatch) =>
              && c.todoId in g.todos && c.workspace.Some?
              && !SameRepository(names, Some(c.workspace.value.repository), g.todos[c.todoId].repository)
            case Rejected(GenerationExhausted) =>
              c.todoId in g.leases && (g.leases[c.todoId].version >= GENERATION_LIMIT || g.leases[c.todoId].epoch >= GENERATION_LIMIT)
            case Rejected(code) => OwnerRejection(TodoOf(g, c.todoId), c.owner, g.registered) == Some(code)
            case Apply(_) => true
            case _ => false
  {
    hide Comparison, SomePairOverlaps, Holds;
    HoldersHaveLeases(g);
    var d := DecideAcquire(names, g, c);
    if d == Conflict(WriteScopeConflict) {
      BlockedIff(names, g, c);
    }
    if d == NoChange(AcquireReplay) {
      forall s ensures s in Comparison(g.leases[c.todoId].scopes) <==> s in Comparison(c.scopes) {
        assert s in ScopeSet(Comparison(g.leases[c.todoId].scopes)) <==> s in ScopeSet(Comparison(c.scopes));
      }
    }
  }

  // ---------- literal scopes that share no path ----------

  /** Canonical scopes without glob characters, none of them twice. */
  predicate PlainScopes(scopes: seq<string>) {
    Comparison(scopes) == scopes && forall i :: 0 <= i < |scopes| ==> !IsGlob(scopes[i])
  }

  ghost predicate ShareAPath(fold: Fold, a: seq<string>, b: seq<string>) {
    exists i, j, path: string :: 0 <= i < |a| && 0 <= j < |b| && Covers(fold, a[i], path) && Covers(fold, b[j], path)
  }

  lemma PlainScopesOverlapIff(fold: Fold, a: seq<string>, b: seq<string>)
    requires CaseTable(fold) && PlainScopes(a) && PlainScopes(b)
    ensures SomePairOverlaps(fold, a, b) <==> ShareAPath(fold, a, b)
  {
    hide CaseTable, ScopePairOverlaps, Covers, IsGlob, Comparison;
    forall i, j | 0 <= i < |a| && 0 <= j < |b| { LiteralTestIsExact(fold, a[i], b[j]); }
    if SomePairOverlaps(fold, a, b) {
      var i, j :| 0 <= i < |a| && 0 <= j < |b| && ScopePairOverlaps(fold, a[i], b[j]);
      var path: string :| Covers(fold, a[i], path) && Covers(fold, b[j], path);
    }
  }

  /** A Todo nobody has leased, which the agent may take. */
  predicate FreeFor(g: Goal, id: TodoId, owner: Agent) {
    g.mode.HardLease? && id !in g.leases && Eligible(g, id, owner)
  }

  /**
   Two agents acquire literal scopes on one repository, one after the other: both are granted and hold
   exactly when no path lies in both.
   */
  lemma DisjointAcquiresSucceed(names: Naming, g: Goal, a: Acquire, b: Acquire)
    requires CaseTable(names.fold) && (forall j :: !Holds(g, j)) && a.todoId != b.todoId
    requires FreeFor(g, a.todoId, a.owner) && FreeFor(g, b.todoId, b.owner) && a.ttl > 0 && b.ttl > 0
    requires a.workspace.None? && b.workspace.None? && a.expectedVersion.None? && b.expectedVersion.None?
    requires PlainScopes(a.scopes) && PlainScopes(b.scopes)
    requires MaybeOneRepository(names, g.todos[b.todoId].repository, g.todos[a.todoId].repository)
    ensures var g1 := ApplyAcquire(names, g, a);
            && Holds(g1, a.todoId)
            && (DecideAcquire(names, g1, b).Apply? <==> !ShareAPath(names.fold, b.scopes, a.scopes))
            && (!ShareAPath(names.fold, b.scopes, a.scopes) ==>
                Holds(ApplyAcquire(names, g1, b), a.todoId) && Holds(ApplyAcquire(names, g1, b), b.todoId))
  {
    hide CaseTable, Comparison, SomePairOverlaps, ShareAPath, IsGlob;
    AcquireAppliesIff(names, g, a);
    AcquiredRecord(names, g, a);
    var g1 := ApplyAcquire(names, g, a);
    FirstHolds(names, g, a);
    AcquireAppliesIff(names, g1, b);
    PlainScopesOverlapIff(names.fold, b.scopes, a.scopes);
    assert InTheWay(names, g1, b, a.todoId) <==> ShareAPath(names.fold, b.scopes, a.scopes);
    if DecideAcquire(names, g1, b).Apply? {
      GrantHolds(names, g1, b);
    }
  }

  lemma FirstHolds(names: Naming, g: Goal, a: Acquire)
    requires (forall j :: !Holds(g, j)) && DecideAcquire(names, g, a).Apply? && a.ttl > 0
    ensures Holds(ApplyAcquire(names, g, a), a.todoId)
    ensures forall j :: Holds(ApplyAcquire(names, g, a), j) ==> j == a.todoId
  {
    GrantHolds(names, g, a);
  }

  lemma GrantHolds(names: Naming, g: Goal, a: Acquire)
    requires DecideAcquire(names, g, a).Apply? && a.ttl > 0
    ensures Holds(ApplyAcquire(names, g, a), a.todoId)
    ensures forall j :: j != a.todoId ==> Holds(ApplyAcquire(names, g, a), j) == Holds(g, j)
  {
    hide Comparison, BlocksAcquire;
  }

  // ---------- renew, transfer, release ----------

  /** The command carries the record's owner, key and version. */
  predicate CarriesRecord(g: Goal, c: Lifecycle) {
    && c.todoId in g.leases && c.owner == g.leases[c.todoId].owner && c.key == g.leases[c.todoId].key
    && c.expectedVersion == Some(g.leases[c.todoId].version)
  }

  /** The record is of a running lease whose repository is still the Todo's. */
  predicate Extensible(names: Naming, g: Goal, c: Lifecycle) {
    && g.mode.HardLease? && CarriesRecord(g, c) && c.todoId in g.todos
    && !g.leases[c.todoId].released && g.now < g.leases[c.todoId].expiresAt
    && (g.leases[c.todoId].repository.Some? ==> SameRepository(names, g.leases[c.todoId].repository, g.todos[c.todoId].repository))
    && g.leases[c.todoId].version < GENERATION_LIMIT
  }

  /** A release needs only the record's owner, key and version, in any mode and whatever became of the Todo. */
  lemma ReleaseAppliesIff(names: Naming, g: Goal, c: Lifecycle)
    requires c.operation.Release?
    ensures DecideLifecycle(names, g, c).Apply? <==> CarriesRecord(g, c) && !g.leases[c.todoId].released
    ensures DecideLifecycle(names, g, c).Apply? ==> DecideLifecycle(names, g, c).next == g.leases[c.todoId].(released := true)
  {
  }

  /** A renewal needs in addition a running lease and an eligible owner; it sets the time and raises the version. */
  lemma RenewAppliesIff(names: Naming, g: Goal, c: Lifecycle)
    requires c.operation.Renew?
    ensures DecideLifecycle(names, g, c).Apply? <==> Extensible(names, g, c) && Eligible(g, c.todoId, c.owner)
    ensures DecideLifecycle(names, g, c).Apply? ==>
      var l, m := g.leases[c.todoId], DecideLifecycle(names, g, c).next;
      m == l.(version := l.version + 1, expiresAt := m.expiresAt) && RunsFor(g.now, c.operation.ttl, m.expiresAt)
  {
    EligibleIff(g, c.todoId, c.owner);
  }

  /** A plain transfer asks for an eligible new owner with a new key, and of the old owner only that it is registered. */
  lemma TransferAppliesIff(names: Naming, g: Goal, c: Lifecycle)
    requires c.operation.Transfer? && !c.operation.withClaim
    ensures DecideLifecycle(names, g, c).Apply? <==>
            && Extensible(names, g, c) && g.leases[c.todoId].epoch < GENERATION_LIMIT && c.owner in g.registered
            && Eligible(g, c.todoId, c.operation.newOwner) && c.operation.newKey != c.key
    ensures DecideLifecycle(names, g, c).Apply? ==> Transferred(g, c, DecideLifecycle(names, g, c).next)
  {
    EligibleIff(g, c.todoId, c.operation.newOwner);
  }

  predicate Transferred(g: Goal, c: Lifecycle, m: Lease)
    requires c.operation.Transfer?
  {
    && c.todoId in g.leases
    && m == g.leases[c.todoId].(owner := c.operation.newOwner, key := c.operation.newKey, version := g.leases[c.todoId].version + 1,
                                epoch := g.leases[c.todoId].epoch + 1, expiresAt := m.expiresAt)
    && RunsFor(g.now, c.operation.ttl, m.expiresAt)
  }

  /** Nothing but the claim keeps the agent from the Todo. */
  predicate MayReceive(g: Goal, id: TodoId, agent: Agent) {
    && id in g.todos && agent in g.registered && agent !in g.todos[id].excluded
    && (g.todos[id].boundAgent.None? || g.todos[id].boundAgent.value == agent)
  }

  /** A transfer with the claim needs the claim, both agents fit for the Todo, and moves claim and lease together. */
  lemma ClaimTransferAppliesIff(names: Naming, g: Goal, c: Lifecycle)
    requires c.operation.Transfer? && c.operation.withClaim && c.operation.newOwner != ""
    ensures DecideLifecycle(names, g, c).Apply? <==>
            && Extensible(names, g, c) && g.leases[c.todoId].epoch < GENERATION_LIMIT && c.operation.newKey != c.key
            && !g.todos[c.todoId].archived && g.todos[c.todoId].status == "open" && g.todos[c.todoId].role == "agent"
            && g.todos[c.todoId].taskClass != Some("user_action") && g.todos[c.todoId].claimedBy == Some(c.owner)
            && MayReceive(g, c.todoId, c.owner) && MayReceive(g, c.todoId, c.operation.newOwner)
    ensures DecideLifecycle(names, g, c).Apply? ==>
      && Transferred(g, c, DecideLifecycle(names, g, c).next)
      && ApplyLifecycle(names, g, c).todos == g.todos[c.todoId := g.todos[c.todoId].(claimedBy := Some(c.operation.newOwner))]
  {
  }

  /** The answer is true of the head. */
  predicate TrueAnswer(names: Naming, g: Goal, c: Lifecycle, d: Decision) {
    match d
    case Conflict(VersionMismatch) => c.expectedVersion != Some(VersionOf(LeaseOf(g, c.todoId)))
    case NoChange(LeaseMissing) => c.operation.Release? && c.todoId !in g.leases && c.expectedVersion == Some(0)
    case NoChange(ReleaseReplay) => c.operation.Release? && CarriesRecord(g, c) && g.leases[c.todoId].released
    case Rejected(ModeForbidsLease) => !c.operation.Release? && g.mode.SoftClaim?
    case Rejected(ModeRetired) => !c.operation.Release? && g.mode.Legacy?
    case Rejected(VersionRequired) => c.expectedVersion.None?
    case Rejected(RepositoryDivergence) => !c.operation.Release? && Moved(names, g, c.todoId)
    case Rejected(LeaseNotActive) =>
      c.todoId in g.leases && !g.leases[c.todoId].released ==> g.leases[c.todoId].expiresAt <= g.now
    case Rejected(CasMismatch) =>
      c.todoId in g.leases && (g.leases[c.todoId].owner != c.owner || g.leases[c.todoId].key != c.key)
    case Rejected(KeyReuse) => c.operation.Transfer? && c.operation.newKey == c.key
    case Rejected(GenerationExhausted) =>
      c.todoId in g.leases && (g.leases[c.todoId].version >= GENERATION_LIMIT || g.leases[c.todoId].epoch >= GENERATION_LIMIT)
    case Rejected(code) =>
      || (c.operation.Transfer? && c.owner !in g.registered && code == OwnerNotRegistered)
      || (!c.operation.Release?
          && OwnerRejection(TodoOf(g, c.todoId), if c.operation.Transfer? then c.operation.newOwner else c.owner, g.registered) == Some(code))
    case Apply(_) => true
    case _ => false
  }

  /** Each answer to a release, a renewal or a plain transfer is true of the head. */
  lemma LifecycleRefusalsAreTrue(names: Naming, g: Goal, c: Lifecycle)
    requires c.operation.Transfer? ==> !c.operation.withClaim
    ensures TrueAnswer(names, g, c, DecideLifecycle(names, g, c))
  {
    match c.operation
    case Release => ReleaseAnswers(names, g, c);
    case Renew(_) => RenewAnswers(names, g, c);
    case Transfer(_, _, _, _) => TransferAnswers(names, g, c);
  }

  lemma ReleaseAnswers(names: Naming, g: Goal, c: Lifecycle)
    requires c.operation.Release?
    ensures TrueAnswer(names, g, c, DecideLifecycle(names, g, c))
  {
  }

  lemma RenewAnswers(names: Naming, g: Goal, c: Lifecycle)
    requires c.operation.Renew?
    ensures TrueAnswer(names, g, c, DecideLifecycle(names, g, c))
  {
  }

  lemma TransferAnswers(names: Naming, g: Goal, c: Lifecycle)
    requires c.operation.Transfer? && !c.operation.withClaim
    ensures TrueAnswer(names, g, c, DecideLifecycle(names, g, c))
  {
  }
}
