/**
 Why the guards of the Todo commands matter to leases: they keep every running lease aligned with its
 Todo's claim and exclusions, and an aligned lease sleeps only because of the Todo's status or the registry.
 */
module LeaseAlignment {
  import opened Options
  import opened TaskLease
  import opened TodoLifecycle
  import opened LeaseSteps

  /** The Todo does not exclude the owner of its lease, and is claimed by nobody else. */
  predicate AlignedWith(lease: Lease, todo: Todo) {
    lease.owner !in todo.excluded && (todo.claimedBy.None? || todo.claimedBy.value == lease.owner)
  }

  /** The running leases of unfinished Todos are aligned. */
  predicate RunningAligned(g: Goal) {
    forall id :: id in g.todos && LeaseActive(g, id) && g.todos[id].status != "done" ==> AlignedWith(g.leases[id], g.todos[id])
  }

  /** Where claims need no lease, no lease runs; nothing is said of the retired mode, in which nothing can be granted. */
  predicate Aligned(g: Goal) {
    match g.mode
    case Legacy => true
    case SoftClaim => forall id :: id in g.leases ==> !LeaseActive(g, id)
    case HardLease => RunningAligned(g)
  }

  // ---------- alignment is kept ----------

  lemma AcquireKeepsAlignment(names: Naming, g: Goal, c: Acquire)
    requires Aligned(g)
    ensures Aligned(ApplyAcquire(names, g, c))
  {
  }

  lemma LifecycleKeepsAlignment(names: Naming, g: Goal, c: Lifecycle)
    requires Aligned(g)
    ensures Aligned(ApplyLifecycle(names, g, c))
  {
  }

  lemma UpdateKeepsAlignment(names: Naming, g: Goal, u: Update)
    requires Aligned(g)
    ensures Aligned(ApplyUpdate(names, g, u))
  {
    var g' := ApplyUpdate(names, g, u);
    if g.mode.HardLease? && UpdateApplies(names, g, u) && LeaseActive(g', u.todoId) && g'.todos[u.todoId].status != "done" {
      UpdatedLeaseAligned(names, g, u);
    }
  }

  lemma UpdatedLeaseAligned(names: Naming, g: Goal, u: Update)
    requires g.mode.HardLease? && RunningAligned(g) && UpdateApplies(names, g, u)
    requires LeaseActive(ApplyUpdate(names, g, u), u.todoId) && ApplyUpdate(names, g, u).todos[u.todoId].status != "done"
    ensures var g' := ApplyUpdate(names, g, u); AlignedWith(g'.leases[u.todoId], g'.todos[u.todoId])
  {
  }

  lemma ClaimKeepsAlignment(names: Naming, g: Goal, c: Claim)
    requires Aligned(g)
    ensures Aligned(ApplyClaim(names, g, c))
  {
    if g.mode.HardLease? && ClaimApplies(names, g, c) && LeaseActive(ApplyClaim(names, g, c), c.todoId) {
      ClaimedLeaseIsTheClaimants(names, g, c);
    }
  }

  /** Where leases are required, a claim succeeds only for the owner of the Todo's running lease. */
  lemma ClaimedLeaseIsTheClaimants(names: Naming, g: Goal, c: Claim)
    requires g.mode.HardLease? && ClaimApplies(names, g, c) && LeaseActive(ApplyClaim(names, g, c), c.todoId)
    ensures ApplyClaim(names, g, c).leases[c.todoId].owner == c.owner
  {
  }

  lemma TerminalKeepsAlignment(names: Naming, g: Goal, t: Terminal)
    requires Aligned(g)
    ensures Aligned(ApplyTerminal(names, g, t))
  {
    hide TerminalFence;
  }

  lemma ModeKeepsAlignment(g: Goal, mode: HandoffMode, reviewed: bool)
    requires Aligned(g)
    ensures Aligned(ApplyMode(g, mode, reviewed))
  {
  }

  lemma ArchiveKeepsAlignment(g: Goal, ids: set<TodoId>)
    requires Aligned(g)
    ensures Aligned(ApplyArchive(g, ids))
  {
  }

  lemma OtherStepsKeepAlignment(names: Naming, g: Goal, a: Action)
    requires Aligned(g) && (a.DoCreate? || a.DoRegister? || a.Tick?)
    ensures Aligned(Next(names, g, a))
  {
  }

  /** Every step keeps alignment. */
  lemma StepKeepsAlignment(names: Naming, g: Goal, a: Action)
    requires Aligned(g)
    ensures Aligned(Next(names, g, a))
  {
    hide Aligned, ApplyAcquire, ApplyLifecycle, ApplyUpdate, ApplyClaim, ApplyTerminal, ApplyMode, ApplyArchive;
    match a {
      case DoAcquire(c) => AcquireKeepsAlignment(names, g, c);
      case DoLifecycle(c) => LifecycleKeepsAlignment(names, g, c);
      case DoUpdate(u) => UpdateKeepsAlignment(names, g, u);
      case DoClaim(c) => ClaimKeepsAlignment(names, g, c);
      case DoTerminal(t) => TerminalKeepsAlignment(names, g, t);
      case DoMode(mode, reviewed) => ModeKeepsAlignment(g, mode, reviewed);
      case DoArchive(ids) => ArchiveKeepsAlignment(g, ids);
      case _ => OtherStepsKeepAlignment(names, g, a);
    }
  }

  // ---------- what alignment is good for ----------

  /** An aligned lease is transferred only while it holds. */
  lemma AlignedTransfersMoveHolders(names: Naming, g: Goal, c: Lifecycle)
    requires Aligned(g) && c.owner != "" && c.operation.Transfer? && DecideLifecycle(names, g, c).Apply?
    ensures Holds(g, c.todoId)
  {
  }

  /** Claiming wakes no aligned lease. */
  lemma AlignedClaimsWakeNothing(names: Naming, g: Goal, c: Claim)
    requires Aligned(g) && ClaimApplies(names, g, c) && !ClaimAcquires(names, g, c)
    ensures !ClaimWakes(g, c)
  {
  }

  /** The step registers no owner of a running lease that was not registered. */
  predicate RegistersNoSleeper(g: Goal, agents: set<Agent>) {
    forall id :: id in g.leases && LeaseActive(g, id) && g.leases[id].owner in agents ==> g.leases[id].owner in g.registered
  }

  /** Neither the registry nor a user's decision wakes a running lease. */
  predicate Careful(names: Naming, g: Goal, a: Action) {
    && (a.DoRegister? ==> RegistersNoSleeper(g, a.agents))
    && (a.DoTerminal? && Opens(names, g, a.terminal) ==> !LeaseActive(g, a.terminal.followup.target))
  }

  lemma CarefulRegistryIsHarmless(names: Naming, g: Goal, agents: set<Agent>)
    requires RegistersNoSleeper(g, agents)
    ensures Harmless(names, g, DoRegister(agents))
  {
    hide Collide;
  }

  /** In an aligned state every careful step is harmless. */
  lemma CarefulStepsAreHarmless(names: Naming, g: Goal, a: Action)
    requires WellFormed(a) && Aligned(g) && Careful(names, g, a)
    ensures Harmless(names, g, a)
  {
    hide Aligned, Collide, Apart, ClaimApplies, ClaimAcquires, ClaimWakes, RegistersNoSleeper, RegistryCollision;
    match a {
      case DoLifecycle(c) =>
        if c.operation.Transfer? && DecideLifecycle(names, g, c).Apply? { AlignedTransfersMoveHolders(names, g, c); }
      case DoClaim(c) =>
        if ClaimApplies(names, g, c) && !ClaimAcquires(names, g, c) { AlignedClaimsWakeNothing(names, g, c); }
      case DoRegister(agents) => CarefulRegistryIsHarmless(names, g, agents);
      case _ =>
    }
  }

  // ---------- what Todo commands promise about leases ----------

  predicate ChangesStatus(edit: Edit) {
    edit.Pause? || edit.Reopen? || edit.Defer? || edit.Resume? || edit.Reactivate?
  }

  /** Pausing, deferring, reopening or reactivating work always retires its lease; none of them grants execution. */
  lemma StatusEditsRetire(names: Naming, g: Goal, u: Update)
    requires UpdateApplies(names, g, u) && ChangesStatus(u.edit) && u.todoId in g.leases
    ensures ApplyUpdate(names, g, u).leases[u.todoId] == g.leases[u.todoId].(released := true)
    ensures !Holds(ApplyUpdate(names, g, u), u.todoId)
  {
  }

  /** The edit carries the lease's key and version. */
  predicate CarriesProof(u: Update, lease: Lease) {
    u.proof == Proof(Some(lease.key), Some(lease.version))
  }

  /**
   What a holding lease means for edits of its Todo: only its owner edits at all; claim and exclusions stay;
   role, class or binding change only with key and version; a change of status or repository retires the lease.
   Copy edits and retirements need no proof.
   */
  lemma RunningLeaseBindsEdits(names: Naming, g: Goal, u: Update)
    requires UpdateApplies(names, g, u) && Holds(g, u.todoId)
    ensures u.actor == Some(g.leases[u.todoId].owner) && !u.edit.Reopen? && !u.edit.Resume? && !u.edit.Reactivate?
    ensures var todo, next := g.todos[u.todoId], TodoAfter(g.todos[u.todoId], u.edit);
            && next.claimedBy == todo.claimedBy && next.excluded == todo.excluded
            && (next.role != todo.role || next.taskClass != todo.taskClass || next.boundAgent != todo.boundAgent ==>
                CarriesProof(u, g.leases[u.todoId]))
            && (next.status != todo.status || next.repository != todo.repository ==>
                ApplyUpdate(names, g, u).leases[u.todoId] == g.leases[u.todoId].(released := true))
    ensures u.edit.Other? ==> CarriesProof(u, g.leases[u.todoId])
  {
  }

  /** A copy edit leaves every fact that leases depend on as it was. */
  lemma CopyEditsChangeNothing(names: Naming, g: Goal, u: Update)
    requires u.edit.Copy?
    ensures ApplyUpdate(names, g, u) == g
  {
  }

  /** Under a running lease of its own, an agent can edit text, evidence and priority without key or version. */
  lemma OwnerCopiesFreely(names: Naming, g: Goal, u: Update)
    requires Holds(g, u.todoId) && g.mode.HardLease? && u.actor == Some(g.leases[u.todoId].owner) && !Supplied(u.proof)
    requires u.edit.Copy? && u.edit.kind in {Text, Evidence, Priority}
    requires var todo := g.todos[u.todoId];
             && todo.role == "agent" && !RepositoryDiverged(names, Some(todo), g.leases[u.todoId].repository)
             && (todo.boundAgent.Some? ==> todo.boundAgent == u.actor)
    ensures UpdateApplies(names, g, u)
  {
  }

  /** Completed work is held by nobody, and only its holder can complete held work. */
  lemma CompletionEndsTheHold(names: Naming, g: Goal, t: Terminal)
    requires TerminalApplies(names, g, t)
    ensures !Holds(ApplyTerminal(names, g, t), t.todoId)
    ensures Holds(g, t.todoId) ==>
      && t.actor == Some(g.leases[t.todoId].owner)
      && t.proof == Proof(Some(g.leases[t.todoId].key), Some(g.leases[t.todoId].version))
      && ApplyTerminal(names, g, t).leases[t.todoId] == g.leases[t.todoId].(released := true)
  {
  }

  /** Where leases are required, a successful claim leaves the claimant holding the Todo's lease. */
  lemma ClaimantHolds(names: Naming, g: Goal, c: Claim)
    requires WellFormed(DoClaim(c)) && g.mode.HardLease? && ClaimApplies(names, g, c)
    requires g.todos[c.todoId].taskClass != Some("user_action") && (c.todoId in g.leases ==> g.leases[c.todoId].ttl > 0)
    ensures Holds(ApplyClaim(names, g, c), c.todoId) && ApplyClaim(names, g, c).leases[c.todoId].owner == c.owner
  {
    hide Exclusive;
    if ClaimAcquires(names, g, c) {
      FreshClaimHolds(names, g, c);
    } else {
      KeptClaimHolds(names, g, c);
    }
  }

  lemma FreshClaimHolds(names: Naming, g: Goal, c: Claim)
    requires WellFormed(DoClaim(c)) && g.mode.HardLease? && ClaimAcquires(names, g, c)
    ensures Holds(ApplyClaim(names, g, c), c.todoId) && ApplyClaim(names, g, c).leases[c.todoId].owner == c.owner
  {
  }

  lemma KeptClaimHolds(names: Naming, g: Goal, c: Claim)
    requires WellFormed(DoClaim(c)) && g.mode.HardLease? && ClaimApplies(names, g, c) && !ClaimAcquires(names, g, c)
    requires g.todos[c.todoId].taskClass != Some("user_action") && (c.todoId in g.leases ==> g.leases[c.todoId].ttl > 0)
    ensures Holds(ApplyClaim(names, g, c), c.todoId) && ApplyClaim(names, g, c).leases[c.todoId].owner == c.owner
  {
  }
}
