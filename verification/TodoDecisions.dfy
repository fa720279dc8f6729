/** What Todo commands do when they are admitted, who is always admitted, and who never is. */
module TodoDecisions {
  import opened Options
  import opened CanonicalScopes
  import opened TaskLease
  import opened TodoLifecycle
  import opened LeaseSteps
  import opened LeaseRuns
  import opened LeaseDecisions

  // ---------- effects ----------

  /** The status an edit leads to. */
  function StatusAfter(edit: Edit, before: string): string
    requires !edit.Other?
  {
    match edit
    case Pause => "blocked"
    case Reopen => "open"
    case Defer => "deferred"
    case Resume => "open"
    case Reactivate => "open"
    case Revise(_, _) => before
    case Copy(_) => before
  }

  /** The status from which an edit leads, where it changes it. */
  predicate StartsFrom(edit: Edit, before: string) {
    match edit
    case Pause => before == "open"
    case Reopen => before == "blocked"
    case Defer => before == "open"
    case Resume => before == "deferred"
    case Reactivate => before == "done"
    case _ => true
  }

  /** An admitted edit changes its own Todo and at most its own lease, and does what it says. */
  lemma EditsDoWhatTheySay(names: Naming, g: Goal, u: Update)
    requires UpdateApplies(names, g, u)
    ensures var g', todo := ApplyUpdate(names, g, u), g.todos[u.todoId];
            && StartsFrom(u.edit, todo.status)
            && g' == g.(todos := g'.todos, leases := g'.leases) && g'.todos.Keys == g.todos.Keys && g'.leases.Keys == g.leases.Keys
            && (forall id :: id in g.todos && id != u.todoId ==> g'.todos[id] == g.todos[id])
            && (forall id :: id in g.leases && id != u.todoId ==> g'.leases[id] == g.leases[id])
            && (u.edit.Other? ==> g'.todos[u.todoId] == u.edit.next)
            && (!u.edit.Other? ==>
                  g'.todos[u.todoId] == todo.(status := StatusAfter(u.edit, todo.status),
                                              repository := if u.edit.Revise? then u.edit.repository else todo.repository))
  {
    hide EditAdmitted, MayEdit, OwnershipKept;
  }

  /** Revising the requirements of leased work retires its lease. */
  lemma RevisionsRetire(names: Naming, g: Goal, u: Update)
    requires UpdateApplies(names, g, u) && u.edit.Revise? && u.todoId in g.leases && g.mode.HardLease?
    ensures u.edit.otherRequirements || u.edit.repository != g.todos[u.todoId].repository ==>
            ApplyUpdate(names, g, u).leases[u.todoId] == g.leases[u.todoId].(released := true)
  {
  }

  // ---------- who never is admitted ----------

  /** The actor is unknown, excluded, not the bound agent, or faces another owner's claim without a grant. */
  predicate Stranger(g: Goal, id: TodoId, actor: Agent, granted: bool) {
    id in g.todos ==>
      || actor !in g.registered || actor in g.todos[id].excluded
      || (g.todos[id].boundAgent.Some? && g.todos[id].boundAgent.value != actor)
      || (g.todos[id].claimedBy.Some? && g.todos[id].claimedBy.value != actor && !granted)
  }

  /** Strangers change nothing, and nothing happens to archived Todos or in the retired mode. */
  lemma StrangersChangeNothing(names: Naming, g: Goal, u: Update)
    requires u.actor.Some? && (Stranger(g, u.todoId, u.actor.value, u.granted) || g.mode.Legacy?
                               || (u.todoId in g.todos && g.todos[u.todoId].archived))
    ensures ApplyUpdate(names, g, u) == g
  {
  }

  /** Another owner's claim stands against a claimant without grant, unless that owner's lease expired. */
  lemma ForeignClaimStands(names: Naming, g: Goal, c: Claim)
    requires c.todoId in g.todos && g.todos[c.todoId].claimedBy.Some? && g.todos[c.todoId].claimedBy.value != c.owner && !c.granted
    requires c.todoId in g.leases && !g.leases[c.todoId].released && g.leases[c.todoId].owner == g.todos[c.todoId].claimedBy.value ==>
             g.now < g.leases[c.todoId].expiresAt
    ensures ApplyClaim(names, g, c) == g
  {
    hide ClaimDecision;
  }

  // ---------- who always is ----------

  /** An agent the Todo is open to: registered, not excluded, and neither bound nor claimed away. */
  predicate Insider(g: Goal, id: TodoId, agent: Agent) {
    && id in g.todos && !g.todos[id].archived && agent in g.registered && agent !in g.todos[id].excluded
    && (g.todos[id].boundAgent.None? || g.todos[id].boundAgent.value == agent) && (g.todos[id].claimedBy.None? || g.todos[id].claimedBy.value == agent)
  }

  predicate KeepsRepository(names: Naming, g: Goal, id: TodoId) {
    id in g.todos && id in g.leases && g.leases[id].repository.Some? ==>
      SameRepository(names, g.leases[id].repository, g.todos[id].repository)
  }

  /** The record is the agent's own released one, and the claim still its own. */
  predicate OwnHistory(g: Goal, id: TodoId, agent: Agent) {
    && id in g.todos && id in g.leases && g.leases[id].released
    && g.leases[id].owner == agent && g.todos[id].claimedBy == Some(agent)
  }

  predicate MayMove(names: Naming, g: Goal, id: TodoId, agent: Agent) {
    KeepsRepository(names, g, id) || OwnHistory(g, id, agent)
  }

  predicate Expired(g: Goal, id: TodoId) {
    id in g.leases && !g.leases[id].released ==> g.leases[id].expiresAt <= g.now
  }

  const NO_PROOF: Proof := Proof.Proof(None, None)

  /** The owner of a lease, or anyone the Todo is open to if it has none, can pause or defer the work. */
  lemma OwnersCanPause(names: Naming, g: Goal, u: Update)
    requires u.actor.Some? && Insider(g, u.todoId, u.actor.value) && MayMove(names, g, u.todoId, u.actor.value) && g.mode.HardLease?
    requires g.todos[u.todoId].role == "agent" && g.todos[u.todoId].status == "open" && u.proof == NO_PROOF
    requires u.todoId in g.leases ==> g.leases[u.todoId].owner == u.actor.value
    requires u.edit.Pause? || u.edit.Defer?
    ensures UpdateApplies(names, g, u)
  {
  }

  /** Anyone the Todo is open to can reopen blocked work, or resume deferred work, once no lease runs on it. */
  lemma InsidersCanReopen(names: Naming, g: Goal, u: Update)
    requires u.actor.Some? && Insider(g, u.todoId, u.actor.value) && MayMove(names, g, u.todoId, u.actor.value) && g.mode.HardLease?
    requires g.todos[u.todoId].role == "agent" && u.proof == NO_PROOF && Expired(g, u.todoId)
    requires (u.edit.Reopen? && g.todos[u.todoId].status == "blocked") || (u.edit.Resume? && g.todos[u.todoId].status == "deferred")
    ensures UpdateApplies(names, g, u)
  {
  }

  /** A finished monitor can be started again in either current mode, whatever lease is left on it. */
  lemma InsidersCanReactivate(names: Naming, g: Goal, u: Update)
    requires u.actor.Some? && Insider(g, u.todoId, u.actor.value) && !g.mode.Legacy?
    requires g.todos[u.todoId].role == "agent" && g.todos[u.todoId].status == "done"
    requires g.todos[u.todoId].taskClass == Some("continuous_monitor") && u.edit.Reactivate? && u.proof == NO_PROOF
    ensures UpdateApplies(names, g, u)
  {
  }

  /** The claimant of work whose lease, if any, is its own can revise its requirements. */
  lemma OwnersCanRevise(names: Naming, g: Goal, u: Update)
    requires u.actor.Some? && Insider(g, u.todoId, u.actor.value) && MayMove(names, g, u.todoId, u.actor.value) && g.mode.HardLease?
    requires g.todos[u.todoId].role == "agent" && g.todos[u.todoId].status in {"open", "blocked", "deferred"}
    requires u.edit.Revise? && u.proof == NO_PROOF && g.todos[u.todoId].claimedBy == u.actor
    requires u.todoId in g.leases ==> g.leases[u.todoId].owner == u.actor.value
    ensures UpdateApplies(names, g, u)
  {
  }

  /** The holder of a lease, with key and version, can always complete its work; the lease is released and the Todo done. */
  lemma HoldersCanComplete(names: Naming, g: Goal, t: Terminal)
    requires Holds(g, t.todoId) && KeepsRepository(names, g, t.todoId) && !g.mode.Legacy?
    requires t.actor == Some(g.leases[t.todoId].owner) && (g.todos[t.todoId].boundAgent.None? || g.todos[t.todoId].boundAgent == t.actor)
    requires t.proof == Proof.Proof(Some(g.leases[t.todoId].key), Some(g.leases[t.todoId].version))
    ensures TerminalApplies(names, g, t)
    ensures ApplyTerminal(names, g, t).leases == g.leases[t.todoId := g.leases[t.todoId].(released := true)]
    ensures ApplyTerminal(names, g, t).todos[t.todoId] == g.todos[t.todoId].(status := "done", claimedBy := t.claimAfter)
  {
  }

  /** A user's approval opens a blocked agent Todo, a gate's rejection blocks an open one, and nothing else follows from a completion. */
  lemma CompletionDoesWhatItSays(names: Naming, g: Goal, t: Terminal, id: TodoId)
    requires TerminalApplies(names, g, t) && id in g.todos
    ensures id in ApplyTerminal(names, g, t).todos
    ensures var source, before, after := g.todos[t.todoId], g.todos[id], ApplyTerminal(names, g, t).todos[id];
            if id == t.todoId then after == source.(status := "done", claimedBy := t.claimAfter)
            else if t.supersede || source.role != "user" || before.role != "agent" || before.archived then after == before
            else if t.followup == BlockTarget(id) && source.taskClass == Some("user_gate") && before.status == "open"
            then after == before.(status := "blocked")
            else if t.followup == OpenTarget(id) && source.taskClass in {Some("user_gate"), Some("user_action")} && before.status == "blocked"
            then after == before.(status := "open")
            else after == before
  {
    hide TerminalFence, MayEdit;
  }

  // ---------- claims ----------

  /** Unclaimed work that nobody has leased can be claimed, with a lease of 45 minutes, unless a holder is in the way. */
  lemma FreeWorkCanBeClaimed(names: Naming, g: Goal, c: Claim)
    requires FreeFor(g, c.todoId, c.owner) && g.todos[c.todoId].role == "agent" && g.todos[c.todoId].claimedBy.None?
    requires c.actor == Some(c.owner) && c.execution.Managed? && c.execution.workspace.None?
    requires forall id :: !InTheWay(names, WithClaim(g, c), FreshLease(g, c), id)
    ensures ClaimApplies(names, g, c) && ClaimAcquires(names, g, c)
    ensures var l := ApplyClaim(names, g, c).leases[c.todoId];
            && l.owner == c.owner && l.scopes == Comparison(c.scopes) && l.version == 1 && RunsFor(g.now, 2700, l.expiresAt)
            && ApplyClaim(names, g, c).todos[c.todoId] == g.todos[c.todoId].(claimedBy := Some(c.owner))
  {
    hide DecideAcquire, InTheWay, Comparison, Holds;
    HoldersHaveLeases(WithClaim(g, c));
    AcquireAppliesIff(names, WithClaim(g, c), FreshLease(g, c));
    AcquiredRecord(names, WithClaim(g, c), FreshLease(g, c));
  }

  /** A managed claim by the holder renews the lease exactly in the last third of its time. */
  lemma ClaimRenewsIff(names: Naming, g: Goal, c: Claim)
    requires g.mode.HardLease? && Holds(g, c.todoId) && g.leases[c.todoId].owner == c.owner && g.todos[c.todoId].role == "agent"
    requires c.actor == Some(c.owner) && c.execution.Managed? && KeepsRepository(names, g, c.todoId)
    requires g.leases[c.todoId].version < GENERATION_LIMIT
    ensures ClaimApplies(names, g, c)
    ensures var l, m := g.leases[c.todoId], ApplyClaim(names, g, c).leases[c.todoId];
            if 3 * (l.expiresAt - g.now) <= 1000 * l.ttl
            then m == l.(version := l.version + 1, expiresAt := m.expiresAt) && RunsFor(g.now, l.ttl, m.expiresAt)
            else m == l
  {
    hide DecideLifecycle;
    RenewAppliesIff(names, g, RenewalOf(g, c));
    HoldsIff(g, c.todoId);
  }

  // ---------- creation, archive and mode ----------

  /** A new Todo is added exactly when its id is unused, it is neither finished nor archived, and its claimant registered. */
  lemma CreateIff(g: Goal, id: TodoId, todo: Todo)
    requires id in g.leases ==> id in g.todos
    ensures var unused := id !in g.todos && !todo.archived && todo.status != "done" && (todo.claimedBy.Some? ==> todo.claimedBy.value in g.registered);
            ApplyCreate(g, id, todo) == if unused then g.(todos := g.todos[id := todo]) else g
  {
  }

  /** Finished Todos can always be archived, and archiving changes nothing else. */
  lemma ArchiveDoesWhatItSays(g: Goal, ids: set<TodoId>, id: TodoId)
    requires id in g.todos
    ensures var g' := ApplyArchive(g, ids);
            && id in g'.todos && g'.leases == g.leases
            && (g'.todos[id] == g.todos[id] || (id in ids && g.todos[id].status == "done" && g'.todos[id] == g.todos[id].(archived := true)))
            && ((forall i :: i in ids ==> i in g.todos && !g.todos[i].archived && g.todos[i].status == "done") && id in ids ==> g'.todos[id].archived)
  {
  }

  /** The mode changes by request exactly while no unfinished Todo is claimed and no lease runs, and never to the retired mode. */
  lemma ModeChangesIff(g: Goal, mode: HandoffMode)
    requires mode != g.mode
    ensures ApplyMode(g, mode, false) == g.(mode := mode) <==>
            && mode in {SoftClaim, HardLease}
            && (forall id :: id in g.todos && g.todos[id].claimedBy.Some? ==> g.todos[id].archived || g.todos[id].status in {"done", "deferred"})
            && (forall id :: id in g.leases ==> g.leases[id].released || g.leases[id].expiresAt <= g.now)
  {
  }

  /** A reviewed migration needs registered claimants, and no unreleased lease, or only running leases that hold. */
  lemma MigrationIff(g: Goal, mode: HandoffMode)
    requires mode != g.mode
    ensures ApplyMode(g, mode, true) == g.(mode := mode) <==>
            && mode in {SoftClaim, HardLease}
            && (forall id :: id in g.todos && g.todos[id].claimedBy.Some? ==>
                  g.todos[id].archived || g.todos[id].status in {"done", "deferred"} || g.todos[id].claimedBy.value in g.registered)
            && (forall id :: id in g.leases && !g.leases[id].released ==>
                  mode.HardLease? && (g.now < g.leases[id].expiresAt ==> Eligible(g, id, g.leases[id].owner)))
  {
    forall id { HoldsIff(g, id); }
    hide Holds;
  }

  // ---------- what binds editors, claimants and finishers ----------

  /** Without an actor only unowned Todos are edited, and only where at most one agent is registered. */
  lemma AnonymousEditsAreBounded(names: Naming, g: Goal, u: Update)
    requires u.actor.None? && UpdateApplies(names, g, u)
    ensures |g.registered| <= 1 && u.todoId in g.todos
    ensures g.todos[u.todoId].claimedBy.None? && g.todos[u.todoId].boundAgent.None? && g.todos[u.todoId].excluded == {}
  {
  }

  /** Where leases are required, the record of another agent, even expired, bars deferral, revision and ordinary edits. */
  lemma ForeignRecordsBindEdits(names: Naming, g: Goal, u: Update)
    requires g.mode.HardLease? && u.todoId in g.leases && u.actor != Some(g.leases[u.todoId].owner)
    requires u.edit.Defer? || u.edit.Revise? || u.edit.Other?
    ensures ApplyUpdate(names, g, u) == g
  {
  }

  /** Where leases are required, a record of another repository bars edits, except of the agent's own released history. */
  lemma MovedRepositoriesBindEdits(names: Naming, g: Goal, u: Update)
    requires g.mode.HardLease? && u.todoId in g.leases && u.actor.Some? && !MayMove(names, g, u.todoId, u.actor.value)
    requires u.edit.Pause? || u.edit.Reopen? || u.edit.Defer? || u.edit.Revise? || u.edit.Other?
    ensures ApplyUpdate(names, g, u) == g
  {
  }

  /** Over another agent's record, copy is edited only by a claimant restoring it, or in a bound user's reminder once it is released. */
  lemma ForeignRecordsBindCopies(names: Naming, g: Goal, u: Update)
    requires u.edit.Copy? && u.todoId in g.leases && u.actor != Some(g.leases[u.todoId].owner) && UpdateApplies(names, g, u)
    ensures var todo := g.todos[u.todoId];
            || (u.edit.kind.Restoration? && todo.claimedBy == u.actor && Expired(g, u.todoId))
            || (g.leases[u.todoId].released && todo.role == "user" && todo.taskClass == Some("user_action") && todo.boundAgent == u.actor)
  {
  }

  /** Over released history its owner can edit text where leases are not used, and, with the old proof, references of finished work. */
  lemma OwnersCanCopyHistory(names: Naming, g: Goal, u: Update)
    requires u.actor.Some? && Insider(g, u.todoId, u.actor.value) && OwnHistory(g, u.todoId, u.actor.value)
    requires KeepsRepository(names, g, u.todoId) && !g.mode.Legacy? && u.edit.Copy?
    requires var todo, lease := g.todos[u.todoId], g.leases[u.todoId];
             || (g.mode.SoftClaim? && todo.role == "agent" && todo.status == "open" && u.edit.kind.Text? && u.proof == NO_PROOF)
             || (todo.status == "done" && u.edit.kind.References? && u.proof == Proof.Proof(Some(lease.key), Some(lease.version)))
    ensures UpdateApplies(names, g, u)
  {
  }

  /** Under a running lease work is neither reopened nor resumed, and paused by nobody but the lease's owner. */
  lemma RunningLeasesBindStatus(names: Naming, g: Goal, u: Update)
    requires u.todoId in g.leases && !g.leases[u.todoId].released && g.now < g.leases[u.todoId].expiresAt
    requires u.edit.Reopen? || u.edit.Resume? || (u.edit.Pause? && u.actor != Some(g.leases[u.todoId].owner))
    ensures ApplyUpdate(names, g, u) == g
  {
  }

  /** Another agent's claim gives way to a grant from a registered owner, or where that owner's lease expired; never while that lease runs. */
  predicate ClaimOpenTo(g: Goal, c: Claim)
    requires c.todoId in g.todos
  {
    match g.todos[c.todoId].claimedBy
    case None => true
    case Some(x) =>
      || x == c.owner
      || (&& !(c.todoId in g.leases && g.leases[c.todoId].owner == x && !g.leases[c.todoId].released && g.now < g.leases[c.todoId].expiresAt)
          && (|| (c.granted && x in g.registered)
              || (g.mode.HardLease? && c.execution.Managed? && c.todoId in g.leases && g.leases[c.todoId].owner == x
                  && !g.leases[c.todoId].released && g.leases[c.todoId].expiresAt <= g.now)))
  }

  lemma ClaimAdmittedIff(g: Goal, c: Claim)
    ensures ClaimAdmitted(g, c) <==>
            && c.todoId in g.todos && !g.todos[c.todoId].archived && !g.mode.Legacy?
            && g.todos[c.todoId].role == "agent" && g.todos[c.todoId].status == "open"
            && c.owner in g.registered && c.owner !in g.todos[c.todoId].excluded
            && (c.actor == Some(c.owner) || (c.actor.None? && |g.registered| <= 1 && !c.execution.Managed?))
            && ClaimOpenTo(g, c)
  {
  }

  // ---------- exact conditions ----------

  /** Neither exclusion nor claim keeps the agent from the work. */
  predicate FitsWork(todo: Todo, agent: Agent, registered: set<Agent>) {
    agent in registered && agent !in todo.excluded && (todo.claimedBy.None? || todo.claimedBy.value == agent)
  }

  /** A granted agent acts on another's claim. */
  predicate Overrides(g: Goal, id: TodoId, actor: Option<Agent>, granted: bool)
    requires id in g.todos
  {
    var todo := g.todos[id];
    && actor.Some? && granted && |g.registered| > 1 && actor.value in g.registered && actor.value !in todo.excluded
    && (todo.boundAgent.None? || todo.boundAgent == actor) && todo.claimedBy.Some? && todo.claimedBy != actor
  }

  /** Who may edit a Todo at all: those it is open to, the granted, and the single anonymous user of unowned work. */
  predicate MayTouch(g: Goal, id: TodoId, actor: Option<Agent>, granted: bool)
    requires id in g.todos
  {
    var todo := g.todos[id];
    match actor
    case None => |g.registered| <= 1 && todo.claimedBy.None? && todo.boundAgent.None? && todo.excluded == {}
    case Some(agent) => (FitsWork(todo, agent, g.registered) && (todo.boundAgent.None? || todo.boundAgent == actor)) || Overrides(g, id, actor, granted)
  }

  lemma MayEditIff(g: Goal, id: TodoId, actor: Option<Agent>, granted: bool)
    requires id in g.todos
    ensures MayEdit(g, g.todos[id], actor, granted) <==> MayTouch(g, id, actor, granted)
    ensures Delegated(g, g.todos[id], actor, granted) <==> Overrides(g, id, actor, granted)
  {
  }

  /** The holder's key and version, on an undiverged repository. */
  predicate ProvenHolder(names: Naming, g: Goal, id: TodoId, actor: Option<Agent>, proof: Proof) {
    && id in g.leases && actor == Some(g.leases[id].owner)
    && proof == Proof.Proof(Some(g.leases[id].key), Some(g.leases[id].version)) && KeepsRepository(names, g, id)
  }

  /** Exactly when an ordinary edit is admitted: over a lease by its proven holder and claimant, who may not change the contract. */
  lemma OtherEditIff(names: Naming, g: Goal, u: Update)
    requires u.edit.Other?
    ensures UpdateApplies(names, g, u) <==>
            && u.todoId in g.todos && !g.todos[u.todoId].archived && g.todos[u.todoId].status != "done" && !u.edit.next.archived
            && !g.mode.Legacy? && MayTouch(g, u.todoId, u.actor, u.granted)
            && var todo, next := g.todos[u.todoId], u.edit.next;
               var sameOwnership := next.claimedBy == todo.claimedBy && next.excluded == todo.excluded;
               if u.todoId in g.leases
               then Holds(g, u.todoId) && ProvenHolder(names, g, u.todoId, u.actor, u.proof) && todo.claimedBy == u.actor
                    && sameOwnership && next.status == todo.status && next.repository == todo.repository
               else u.proof == NO_PROOF && (g.mode.SoftClaim? || (sameOwnership && Overrides(g, u.todoId, u.actor, u.granted)))
  {
    if u.todoId in g.todos {
      MayEditIff(g, u.todoId, u.actor, u.granted);
    }
    hide Holds, MayEdit, Delegated, MayTouch, Overrides;
  }

  /** A running lease of an eligible owner on open work; unlike `Holds` it does not ask what kind of work it is. */
  predicate Effective(g: Goal, id: TodoId) {
    && id in g.todos && id in g.leases && !g.leases[id].released && g.now < g.leases[id].expiresAt
    && g.todos[id].status == "open" && FitsWork(g.todos[id], g.leases[id].owner, g.registered)
  }

  /** Work that its agent may close without ever holding a lease: reminders, deferred work under supersession, user gates. */
  predicate NeedsNoLease(g: Goal, t: Terminal)
    requires t.todoId in g.todos
  {
    var todo := g.todos[t.todoId];
    && Expired(g, t.todoId) && t.actor.Some? && FitsWork(todo, t.actor.value, g.registered)
    && (|| (!t.supersede && todo.role == "user" && todo.taskClass == Some("user_action") && todo.boundAgent == t.actor && t.proof == NO_PROOF)
        || (t.supersede && todo.role == "agent" && todo.status == "deferred" && t.proof == NO_PROOF)
        || (t.autoAcquire && todo.role == "user" && todo.taskClass == Some("user_gate") && todo.status == "open"))
  }

  /** Exactly when work is completed: under an effective lease only by its proven holder. */
  lemma CompletionIff(names: Naming, g: Goal, t: Terminal)
    ensures TerminalApplies(names, g, t) <==>
            && t.todoId in g.todos && !g.todos[t.todoId].archived && g.todos[t.todoId].status != "done" && !g.mode.Legacy?
            && (|| MayTouch(g, t.todoId, t.actor, t.granted)
                || (t.gateOverride && !t.supersede && g.todos[t.todoId].role == "user" && g.todos[t.todoId].taskClass == Some("user_gate")))
            && if Effective(g, t.todoId) then ProvenHolder(names, g, t.todoId, t.actor, t.proof)
               else if g.mode.HardLease? && !Overrides(g, t.todoId, t.actor, t.granted) then NeedsNoLease(g, t)
               else t.proof == NO_PROOF
  {
    if t.todoId in g.todos {
      MayEditIff(g, t.todoId, t.actor, t.granted);
    }
    hide MayEdit, Delegated, MayTouch, Overrides;
  }

  /** What a completion does to leases: it releases the Todo's own, gives a gate without one a released record, and changes no other. */
  lemma CompletionLeases(names: Naming, g: Goal, t: Terminal)
    requires TerminalApplies(names, g, t)
    ensures var after := ApplyTerminal(names, g, t).leases;
            if !Effective(g, t.todoId) && (g.mode.SoftClaim? || Overrides(g, t.todoId, t.actor, t.granted)) then after == g.leases
            else if t.todoId in g.leases then after == g.leases[t.todoId := g.leases[t.todoId].(released := true)]
            else if g.todos[t.todoId].role == "agent" || g.todos[t.todoId].taskClass != Some("user_gate") then after == g.leases
            else && t.todoId in after && after == g.leases[t.todoId := after[t.todoId]] && after[t.todoId].released
                 && t.actor == Some(after[t.todoId].owner) && after[t.todoId].key == t.freshKey && after[t.todoId].scopes == [] && after[t.todoId].version == 1
  {
    MayEditIff(g, t.todoId, t.actor, t.granted);
    hide MayEdit, Delegated, MayTouch, Overrides;
  }

  /** What a claim asks for, where it asks for a lease of its own. */
  function Wanted(g: Goal, c: Claim): Acquire
    requires !c.execution.NoExecution?
  {
    match c.execution
    case Requested(key, version, ttl) => Acquire(c.todoId, c.owner, key, ttl, c.scopes, None, version)
    case Managed(key, workspace) =>
      Acquire(c.todoId, c.owner, key, 2700, c.scopes, workspace, Some(if c.todoId in g.leases then g.leases[c.todoId].version else 0))
  }

  predicate Runs(g: Goal, id: TodoId) {
    id in g.leases && !g.leases[id].released && g.now < g.leases[id].expiresAt
  }

  /**
   Exactly when an admitted claim succeeds.  Where leases are required it needs a running lease of the claimant,
   or acquires one: on request against the claim that stands, managed against the new one.
   */
  lemma ClaimAppliesIff(names: Naming, g: Goal, c: Claim)
    requires ClaimAdmitted(g, c)
    ensures ClaimApplies(names, g, c) <==>
            if g.mode.SoftClaim? then !c.execution.Requested?
            else match c.execution
              case NoExecution => Runs(g, c.todoId) && g.leases[c.todoId].owner == c.owner
              case Requested(_, _, _) => AcquireFits(names, g, Wanted(g, c)) || DecideAcquire(names, g, Wanted(g, c)).NoChange?
              case Managed(_, _) =>
                if !Runs(g, c.todoId) then AcquireFits(names, WithClaim(g, c), Wanted(g, c))
                else g.leases[c.todoId].owner == c.owner
                     && (3 * (g.leases[c.todoId].expiresAt - g.now) <= 1000 * g.leases[c.todoId].ttl ==>
                           DecideLifecycle(names, g, RenewalOf(g, c)).Apply?)
    ensures ClaimApplies(names, g, c) && (g.mode.SoftClaim? || c.execution.NoExecution?) ==>
              ApplyClaim(names, g, c) == g.(todos := g.todos[c.todoId := g.todos[c.todoId].(claimedBy := Some(c.owner))])
  {
    hide DecideAcquire, DecideLifecycle, AcquireFits, Comparison, Holds;
    if c.execution.Requested? {
      AcquireAppliesIff(names, g, Wanted(g, c));
    }
    if c.execution.Managed? {
      AcquireAppliesIff(names, WithClaim(g, c), Wanted(g, c));
      if !Runs(g, c.todoId) {
        IdleAcquiresDecide(names, WithClaim(g, c), Wanted(g, c));
      }
      if Runs(g, c.todoId) {
        RenewalsDecide(names, g, RenewalOf(g, c));
      }
    }
  }

  lemma IdleAcquiresDecide(names: Naming, g: Goal, a: Acquire)
    requires !Runs(g, a.todoId)
    ensures !DecideAcquire(names, g, a).NoChange?
  {
    HoldsIff(g, a.todoId);
    AcquireRefusalsAreTrue(names, g, a);
    hide DecideAcquire, Holds;
  }

  lemma RenewalsDecide(names: Naming, g: Goal, c: Lifecycle)
    requires c.operation.Renew?
    ensures !DecideLifecycle(names, g, c).NoChange?
  {
  }
}
