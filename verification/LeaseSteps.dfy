/** The steps of one Goal, and exactly which of them keep leases exclusive. */
module LeaseSteps {
  import opened Options
  import opened TaskLease
  import opened TodoLifecycle

  const MAX_TTL_SECONDS: nat := 86400

  /** One step: a lease command, a Todo command, a change of mode or registry, or the passing of time. */
  datatype Action =
    | DoAcquire(acquire: Acquire)
    | DoLifecycle(lifecycle: Lifecycle)
    | DoUpdate(update: Update)
    | DoClaim(claim: Claim)
    | DoTerminal(terminal: Terminal)
    | DoCreate(id: TodoId, todo: Todo)
    | DoArchive(ids: set<TodoId>)
    | DoMode(mode: HandoffMode, reviewed: bool)
    | DoRegister(agents: set<Agent>)
    | Tick(elapsed: nat)

  ghost function Next(names: Naming, g: Goal, a: Action): Goal {
    match a
    case DoAcquire(c) => ApplyAcquire(names, g, c)
    case DoLifecycle(c) => ApplyLifecycle(names, g, c)
    case DoUpdate(u) => ApplyUpdate(names, g, u)
    case DoClaim(c) => ApplyClaim(names, g, c)
    case DoTerminal(t) => ApplyTerminal(names, g, t)
    case DoCreate(id, todo) => ApplyCreate(g, id, todo)
    case DoArchive(ids) => ApplyArchive(g, ids)
    case DoMode(mode, reviewed) => ApplyMode(g, mode, reviewed)
    case DoRegister(agents) => g.(registered := agents)
    case Tick(elapsed) => g.(now := g.now + elapsed)
  }

  predicate TtlOk(ttl: nat) {
    0 < ttl <= MAX_TTL_SECONDS
  }

  /** What request decoding guarantees before a command is decided. */
  predicate WellFormed(a: Action) {
    match a
    case DoAcquire(c) => c.owner != "" && TtlOk(c.ttl)
    case DoLifecycle(c) =>
      c.owner != "" && (match c.operation
                        case Release => true
                        case Renew(ttl) => TtlOk(ttl)
                        case Transfer(newOwner, _, ttl, _) => newOwner != "" && TtlOk(ttl))
    case DoClaim(c) => c.owner != "" && (c.execution.Requested? ==> TtlOk(c.execution.ttl))
    case _ => true
  }

  // ---------- steps that wake nothing ----------

  lemma UpdateWakesNothing(names: Naming, g: Goal, u: Update)
    ensures var g' := ApplyUpdate(names, g, u);
            GrantsKept(g, g') && forall j :: Holds(g', j) ==> Holds(g, j)
  {
    var g' := ApplyUpdate(names, g, u);
    forall j | Holds(g', j) ensures Holds(g, j) && SameGrant(g.leases[j], g'.leases[j]) {
      if j == u.todoId && UpdateApplies(names, g, u) {
        UpdatedTodoHeld(names, g, u);
      }
    }
  }

  lemma UpdatedTodoHeld(names: Naming, g: Goal, u: Update)
    requires UpdateApplies(names, g, u) && Holds(ApplyUpdate(names, g, u), u.todoId)
    ensures Holds(g, u.todoId) && g.leases[u.todoId] == ApplyUpdate(names, g, u).leases[u.todoId]
  {
  }

  /** Completion opens the dependent Todo. */
  predicate Opens(names: Naming, g: Goal, t: Terminal) {
    TerminalApplies(names, g, t) && t.followup.OpenTarget? && FollowupApplies(g, g.todos[t.todoId], t, t.followup.target)
  }

  lemma TerminalKeepsOthers(names: Naming, g: Goal, t: Terminal, j: TodoId)
    requires TerminalApplies(names, g, t) && Holds(ApplyTerminal(names, g, t), j)
    ensures j != t.todoId && LeaseOf(ApplyTerminal(names, g, t), j) == LeaseOf(g, j)
    ensures Holds(g, j) || (Opens(names, g, t) && j == t.followup.target)
  {
  }

  lemma TerminalOpens(names: Naming, g: Goal, t: Terminal)
    requires Opens(names, g, t)
    ensures var target := t.followup.target;
            && target != t.todoId
            && (Holds(ApplyTerminal(names, g, t), target) <==>
                LeaseActive(g, target) && OwnerRejection(Some(g.todos[target].(status := "open")), g.leases[target].owner, g.registered).None?)
            && forall j :: j != target && j != t.todoId ==> Holds(ApplyTerminal(names, g, t), j) == Holds(g, j)
  {
  }

  lemma CreateWakesNothing(g: Goal, id: TodoId, todo: Todo)
    ensures var g' := ApplyCreate(g, id, todo);
            GrantsKept(g, g') && forall j :: Holds(g', j) ==> Holds(g, j)
  {
  }

  lemma ArchiveWakesNothing(g: Goal, ids: set<TodoId>)
    ensures var g' := ApplyArchive(g, ids);
            GrantsKept(g, g') && forall j :: Holds(g', j) ==> Holds(g, j)
  {
    var g' := ApplyArchive(g, ids);
    forall j | Holds(g', j) ensures Holds(g, j) {
      assert TodoOf(g', j) == TodoOf(g, j);
    }
  }

  lemma TimeWakesNothing(g: Goal, elapsed: nat)
    ensures var g' := g.(now := g.now + elapsed);
            GrantsKept(g, g') && forall j :: Holds(g', j) ==> Holds(g, j)
  {
  }

  lemma ModeWakesNothing(g: Goal, mode: HandoffMode, reviewed: bool)
    ensures var g' := ApplyMode(g, mode, reviewed);
            GrantsKept(g, g') && forall j :: Holds(g', j) ==> Holds(g, j)
  {
    hide MigrationReady, ModeMayChange;
  }

  lemma OtherStepsWakeNothing(names: Naming, g: Goal, a: Action)
    requires a.DoCreate? || a.DoArchive? || a.DoMode? || a.Tick?
    ensures var g' := Next(names, g, a);
            GrantsKept(g, g') && forall j :: Holds(g', j) ==> Holds(g, j)
  {
    hide Holds, GrantsKept, ApplyCreate, ApplyArchive, ApplyMode;
    match a {
      case DoCreate(id, todo) => CreateWakesNothing(g, id, todo);
      case DoArchive(ids) => ArchiveWakesNothing(g, ids);
      case DoMode(mode, reviewed) => ModeWakesNothing(g, mode, reviewed);
      case Tick(elapsed) => TimeWakesNothing(g, elapsed);
    }
  }

  // ---------- claims ----------

  /** The lease sleeps, and would hold if its Todo were `todo`. */
  predicate Wakes(g: Goal, id: TodoId, todo: Todo) {
    LeaseActive(g, id) && !Holds(g, id) && OwnerRejection(Some(todo), g.leases[id].owner, g.registered).None?
  }

  predicate ClaimWakes(g: Goal, c: Claim) {
    c.todoId in g.todos && !g.todos[c.todoId].archived && Wakes(g, c.todoId, g.todos[c.todoId].(claimedBy := Some(c.owner)))
  }

  lemma ClaimKeepsOthers(names: Naming, g: Goal, c: Claim, j: TodoId)
    requires j != c.todoId
    ensures Holds(ApplyClaim(names, g, c), j) == Holds(g, j) && LeaseOf(ApplyClaim(names, g, c), j) == LeaseOf(g, j)
  {
  }

  lemma KeptClaim(names: Naming, g: Goal, c: Claim)
    requires ClaimApplies(names, g, c) && !ClaimAcquires(names, g, c)
    ensures var g' := ApplyClaim(names, g, c);
            && (Holds(g', c.todoId) ==> c.todoId in g.leases && SameGrant(g.leases[c.todoId], g'.leases[c.todoId]))
            && (ClaimWakes(g, c) ==> Holds(g', c.todoId))
            && (Holds(g', c.todoId) && !Holds(g, c.todoId) ==> ClaimWakes(g, c))
  {
  }

  lemma KeptClaimKeepsExclusionIff(names: Naming, g: Goal, c: Claim)
    requires Exclusive(names, g) && ClaimApplies(names, g, c) && !ClaimAcquires(names, g, c)
    ensures Exclusive(names, ApplyClaim(names, g, c)) <==>
            (ClaimWakes(g, c) ==> Apart(names, g, {c.todoId}, g.leases[c.todoId]))
  {
    hide Collide, ClaimApplies, ClaimAcquires, ApplyClaim, Holds, SameGrant;
    var g' := ApplyClaim(names, g, c);
    forall j | j != c.todoId { ClaimKeepsOthers(names, g, c, j); }
    KeptClaim(names, g, c);
    HoldersHaveLeases(g');
    SameLeaseSameGrant(g, g');
    ExclusiveAfterWaking(names, g, g', c.todoId);
  }

  lemma SameLeaseSameGrant(g: Goal, g': Goal)
    ensures forall j :: j in g'.leases && LeaseOf(g', j) == LeaseOf(g, j) ==> j in g.leases && SameGrant(g.leases[j], g'.leases[j])
  {
  }

  lemma AcquiringClaimKeepsExclusion(names: Naming, g: Goal, c: Claim)
    requires WellFormed(DoClaim(c)) && Exclusive(names, g) && Stamped(g) && ClaimAcquires(names, g, c)
    ensures Exclusive(names, ApplyClaim(names, g, c))
  {
    hide Collide, DecideAcquire;
    var claimed, g' := WithClaim(g, c), ApplyClaim(names, g, c);
    if c.execution.Managed? {
      ExclusiveAfterShrinking(names, g, claimed);
      AcquireKeepsExclusion(names, claimed, FreshLease(g, c));
      assert g' == ApplyAcquire(names, claimed, FreshLease(g, c));
    } else {
      var granted := ApplyAcquire(names, g, RequestedLease(c));
      AcquireKeepsExclusion(names, g, RequestedLease(c));
      assert g' == granted.(todos := claimed.todos);
      ExclusiveAfterShrinking(names, granted, g');
    }
  }

  // ---------- the registry ----------

  predicate Keeps(g: Goal, agents: set<Agent>, id: TodoId) {
    LeaseActive(g, id) && OwnerRejection(TodoOf(g, id), g.leases[id].owner, agents).None?
  }

  /** A lease that sleeps now holds under the new registry and collides with another that does. */
  ghost predicate RegistryCollision(names: Naming, g: Goal, agents: set<Agent>, i: TodoId, j: TodoId) {
    i != j && Keeps(g, agents, i) && !Holds(g, i) && Keeps(g, agents, j) && Collide(names, g.leases[i], g.leases[j])
  }

  lemma RegistryKeepsExclusionIff(names: Naming, g: Goal, agents: set<Agent>)
    requires Exclusive(names, g)
    ensures Exclusive(names, g.(registered := agents)) <==> forall i, j :: !RegistryCollision(names, g, agents, i, j)
  {
    hide Collide;
    var g' := g.(registered := agents);
    forall i ensures Holds(g', i) == Keeps(g, agents, i) {
    }
    hide Holds, Keeps;
    HoldersHaveLeases(g);
    HoldersHaveLeases(g');
    if forall i, j :: !RegistryCollision(names, g, agents, i, j) {
      forall i, j | Holds(g', i) && Holds(g', j) && i != j ensures !Collide(names, g'.leases[i], g'.leases[j]) {
        assert !RegistryCollision(names, g, agents, i, j) && !RegistryCollision(names, g, agents, j, i);
        CollideIsSymmetric(names, g.leases[i], g.leases[j]);
      }
    }
  }

  // ---------- every step ----------

  /** The condition, in the state before the step, under which it keeps exclusion. */
  ghost predicate Harmless(names: Naming, g: Goal, a: Action) {
    match a
    case DoLifecycle(c) =>
      c.operation.Transfer? && !c.operation.withClaim && DecideLifecycle(names, g, c).Apply? ==>
        Holds(g, c.todoId) || Apart(names, g, {c.todoId}, g.leases[c.todoId])
    case DoClaim(c) =>
      ClaimApplies(names, g, c) && !ClaimAcquires(names, g, c) && ClaimWakes(g, c) ==>
        Apart(names, g, {c.todoId}, g.leases[c.todoId])
    case DoTerminal(t) =>
      Opens(names, g, t) && Wakes(g, t.followup.target, g.todos[t.followup.target].(status := "open")) ==>
        Apart(names, g, {t.followup.target, t.todoId}, g.leases[t.followup.target])
    case DoRegister(agents) => forall i, j :: !RegistryCollision(names, g, agents, i, j)
    case _ => true
  }

  lemma LifecycleKeepsExclusionIff(names: Naming, g: Goal, c: Lifecycle)
    requires WellFormed(DoLifecycle(c)) && Exclusive(names, g)
    ensures Exclusive(names, ApplyLifecycle(names, g, c)) <==> Harmless(names, g, DoLifecycle(c))
  {
    hide Collide, Holds, Exclusive, Apart;
    if !c.operation.Transfer? {
      RenewAndReleaseKeepExclusion(names, g, c);
    } else if DecideLifecycle(names, g, c).Apply? {
      TransferKeepsExclusionIff(names, g, c);
      if c.operation.withClaim {
        ClaimTransferMovesAHolder(names, g, c);
      }
    }
  }

  lemma ClaimKeepsExclusionIff(names: Naming, g: Goal, c: Claim)
    requires WellFormed(DoClaim(c)) && Exclusive(names, g) && Stamped(g)
    ensures Exclusive(names, ApplyClaim(names, g, c)) <==> Harmless(names, g, DoClaim(c))
  {
    hide Exclusive, Apart, ClaimDecision, ClaimWakes;
    if ClaimAcquires(names, g, c) {
      AcquiringClaimKeepsExclusion(names, g, c);
    } else if ClaimApplies(names, g, c) {
      KeptClaimKeepsExclusionIff(names, g, c);
    }
  }

  lemma OpeningKeepsExclusionIff(names: Naming, g: Goal, t: Terminal)
    requires Exclusive(names, g) && Opens(names, g, t)
    ensures Exclusive(names, ApplyTerminal(names, g, t)) <==> Harmless(names, g, DoTerminal(t))
  {
    hide Collide, Holds, ApplyTerminal, SameGrant, LeaseActive;
    var g', target := ApplyTerminal(names, g, t), t.followup.target;
    HoldersHaveLeases(g);
    HoldersHaveLeases(g');
    SameLeaseSameGrant(g, g');
    forall j | Holds(g', j) { TerminalKeepsOthers(names, g, t, j); }
    TerminalOpens(names, g, t);
    hide Opens;
    ExclusiveAfterWaking(names, g, g', target);
  }

  lemma TerminalKeepsExclusionIff(names: Naming, g: Goal, t: Terminal)
    requires Exclusive(names, g)
    ensures Exclusive(names, ApplyTerminal(names, g, t)) <==> Harmless(names, g, DoTerminal(t))
  {
    var g' := ApplyTerminal(names, g, t);
    if Opens(names, g, t) {
      OpeningKeepsExclusionIff(names, g, t);
    } else if TerminalApplies(names, g, t) {
      hide Collide, Holds, ApplyTerminal, SameGrant, Opens;
      HoldersHaveLeases(g);
      HoldersHaveLeases(g');
      SameLeaseSameGrant(g, g');
      forall j | Holds(g', j) { TerminalKeepsOthers(names, g, t, j); }
      ExclusiveAfterShrinking(names, g, g');
    }
  }

  /** Every step of a Goal keeps exclusion exactly when it is harmless; all but four kinds always are. */
  lemma StepKeepsExclusionIff(names: Naming, g: Goal, a: Action)
    requires WellFormed(a) && Exclusive(names, g) && Stamped(g)
    ensures Exclusive(names, Next(names, g, a)) <==> Harmless(names, g, a)
  {
    hide Holds, Exclusive, ApplyLifecycle, ApplyUpdate, ApplyClaim, ApplyTerminal, GrantsKept, Collide;
    match a {
      case DoAcquire(c) =>
        if DecideAcquire(names, g, c).Apply? { AcquireKeepsExclusion(names, g, c); }
      case DoLifecycle(c) => LifecycleKeepsExclusionIff(names, g, c);
      case DoUpdate(u) =>
        UpdateWakesNothing(names, g, u);
        ExclusiveAfterShrinking(names, g, Next(names, g, a));
      case DoClaim(c) => ClaimKeepsExclusionIff(names, g, c);
      case DoTerminal(t) => TerminalKeepsExclusionIff(names, g, t);
      case DoRegister(agents) => RegistryKeepsExclusionIff(names, g, agents);
      case _ =>
        OtherStepsWakeNothing(names, g, a);
        ExclusiveAfterShrinking(names, g, Next(names, g, a));
    }
  }

  /** A lease is stamped when it is granted and keeps its stamp. */
  lemma StepKeepsStamps(names: Naming, g: Goal, a: Action)
    requires Stamped(g)
    ensures Stamped(Next(names, g, a))
  {
    hide ApplyAcquire, ApplyLifecycle, ApplyUpdate, ApplyClaim, ApplyTerminal;
    match a {
      case DoAcquire(c) => AcquireKeepsStamps(names, g, c);
      case DoLifecycle(c) => LifecycleKeepsStamps(names, g, c);
      case DoUpdate(u) => UpdateKeepsStamps(names, g, u);
      case DoClaim(c) => ClaimKeepsStamps(names, g, c);
      case DoTerminal(t) => TerminalKeepsStamps(names, g, t);
      case _ =>
    }
  }

  lemma AcquireKeepsStamps(names: Naming, g: Goal, c: Acquire)
    requires Stamped(g)
    ensures Stamped(ApplyAcquire(names, g, c))
  {
  }

  lemma LifecycleKeepsStamps(names: Naming, g: Goal, c: Lifecycle)
    requires Stamped(g)
    ensures Stamped(ApplyLifecycle(names, g, c))
  {
  }

  lemma UpdateKeepsStamps(names: Naming, g: Goal, u: Update)
    requires Stamped(g)
    ensures Stamped(ApplyUpdate(names, g, u))
  {
    hide UpdateApplies;
  }

  lemma ClaimKeepsStamps(names: Naming, g: Goal, c: Claim)
    requires Stamped(g)
    ensures Stamped(ApplyClaim(names, g, c))
  {
  }

  lemma TerminalKeepsStamps(names: Naming, g: Goal, t: Terminal)
    requires Stamped(g)
    ensures Stamped(ApplyTerminal(names, g, t))
  {
    hide TerminalFence, FollowupApplies;
  }
}
