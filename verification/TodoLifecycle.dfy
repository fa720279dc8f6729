/**
 The Todo commands of one Goal, so far as they touch leases: edits that pause, resume or revise work,
 claims, completion with its effect on a dependent Todo, archiving, and changes of the handoff mode.

 Guards that read no lease fact (dependencies, acceptance, decision scopes, capacity) are not modelled:
 a command they refuse is no step.  So, up to steps that change no modelled fact, every run of the program
 is a run of the model.
 */
module TodoLifecycle {
  import opened Options
  import opened TaskLease

  const DEFAULT_TTL_SECONDS: nat := 2700
  const UNFINISHED: set<string> := {"open", "blocked", "deferred"}

  /** The execution proof a command may carry; either half may be missing. */
  datatype Proof = Proof(key: Option<string>, version: Option<nat>)

  predicate Supplied(p: Proof) {
    p.key.Some? || p.version.Some?
  }

  predicate LeaseActive(g: Goal, id: TodoId) {
    id in g.leases && Active(g.leases[id], g.now)
  }

  function Released(g: Goal, id: TodoId): map<TodoId, Lease> {
    if id in g.leases then g.leases[id := g.leases[id].(released := true)] else g.leases
  }

  // ---------- who may edit ----------

  /** A grant lets an agent edit another owner's Todo, but lifts no other restriction. */
  predicate Delegated(g: Goal, todo: Todo, actor: Option<Agent>, granted: bool) {
    |g.registered| > 1 && actor.Some? && granted && ActorRejection(todo, actor.value, g.registered) == Some(ClaimOwnerMismatch)
  }

  predicate MayEdit(g: Goal, todo: Todo, actor: Option<Agent>, granted: bool) {
    if actor.Some? then ActorRejection(todo, actor.value, g.registered).None? || Delegated(g, todo, actor, granted)
    else |g.registered| <= 1 && todo.claimedBy.None? && todo.boundAgent.None? && todo.excluded == {}
  }

  /** The edit carries the current proof of a lease that holds. */
  predicate Fenced(names: Naming, g: Goal, id: TodoId, actor: Option<Agent>, p: Proof) {
    && Holds(g, id) && !RepositoryDiverged(names, TodoOf(g, id), g.leases[id].repository)
    && actor == Some(g.leases[id].owner) && p == Proof(Some(g.leases[id].key), Some(g.leases[id].version))
  }

  /** Administrative edits may pass over a diverged repository only in the owner's released history. */
  predicate RepositoryKept(names: Naming, todo: Todo, lease: Lease, actor: Option<Agent>) {
    || !RepositoryDiverged(names, Some(todo), lease.repository)
    || (lease.released && actor == Some(lease.owner) && todo.claimedBy == actor)
  }

  // ---------- edits ----------

  datatype Edit =
    | Pause                 // open to blocked
    | Reopen                // blocked to open
    | Defer                 // open to deferred
    | Resume                // deferred to open
    | Reactivate            // a finished monitor starts a new cycle
    | Revise(repository: Option<string>, otherRequirements: bool)
    | Copy(kind: CopyKind)  // changes nothing that leases depend on
    | Other(next: Todo)     // every other change of fields

  /** Text or note; evidence; priority or reason; Explore references; an exact restoration of accepted text. */
  datatype CopyKind = Text | Evidence | Priority | References | Restoration

  datatype Update = Update(todoId: TodoId, actor: Option<Agent>, granted: bool, proof: Proof, edit: Edit)

  function TodoAfter(todo: Todo, edit: Edit): Todo {
    match edit
    case Pause => todo.(status := "blocked")
    case Reopen | Resume | Reactivate => todo.(status := "open")
    case Defer => todo.(status := "deferred")
    case Revise(repository, _) => todo.(repository := repository)
    case Copy(_) => todo
    case Other(next) => next
  }

  /** The edit is of the kind its name says. */
  predicate Fits(todo: Todo, u: Update) {
    match u.edit
    case Pause | Defer => todo.role == "agent" && todo.status == "open"
    case Reopen => todo.role == "agent" && todo.status == "blocked"
    case Resume => todo.role == "agent" && todo.status == "deferred"
    case Reactivate => todo.role == "agent" && todo.status == "done" && todo.taskClass == Some("continuous_monitor")
    case Revise(_, _) => todo.role == "agent" && todo.status in UNFINISHED && u.actor.Some? && (todo.claimedBy.None? || todo.claimedBy == u.actor)
    case Copy(kind) => todo.status != "done" || kind.References?
    case Other(next) => todo.status != "done" && !next.archived
  }

  /** What an edit needs when no special rule admits it: with a lease, the holder's proof and an unchanged work contract. */
  predicate OrdinaryEdit(names: Naming, g: Goal, todo: Todo, u: Update) {
    var lease, next := LeaseOf(g, u.todoId), TodoAfter(todo, u.edit);
    if lease.None? then
      !Supplied(u.proof) && (g.mode.SoftClaim? || Delegated(g, todo, u.actor, u.granted))
    else
      && Fenced(names, g, u.todoId, u.actor, u.proof) && todo.claimedBy == u.actor
      && (u.edit.Defer? || (next.status == todo.status && next.repository == todo.repository))
  }

  /** An edit of claim or exclusions is refused over a lease, and altogether where leases are required. */
  predicate OwnershipKept(g: Goal, todo: Todo, u: Update) {
    var next := TodoAfter(todo, u.edit);
    (next.claimedBy == todo.claimedBy && next.excluded == todo.excluded) || (LeaseOf(g, u.todoId).None? && g.mode.SoftClaim?)
  }

  /** Copy edits that need no current proof: the owner's, a bound user's, those over released history, and a restoration. */
  predicate CopyAdmitted(names: Naming, g: Goal, todo: Todo, u: Update)
    requires u.edit.Copy?
  {
    var lease, kind := LeaseOf(g, u.todoId), u.edit.kind;
    || (g.mode.HardLease? && !Supplied(u.proof) && kind in {Text, Evidence, Priority}
        && todo.role == "agent" && todo.status in UNFINISHED && u.actor.Some? && (todo.claimedBy.None? || todo.claimedBy == u.actor)
        && (lease.Some? ==> RepositoryKept(names, todo, lease.value, u.actor) && u.actor == Some(lease.value.owner)))
    || (kind.References? && todo.status == "done" && lease.Some? && lease.value.released
        && u.actor == Some(lease.value.owner) && todo.claimedBy == u.actor
        && u.proof == Proof(Some(lease.value.key), Some(lease.value.version))
        && !RepositoryDiverged(names, Some(todo), lease.value.repository))
    || (!Supplied(u.proof) && kind in {Text, Evidence} && (lease.Some? ==> lease.value.released)
        && todo.role == "user" && todo.taskClass == Some("user_action") && todo.status == "open" && todo.claimedBy.None?
        && u.actor.Some? && todo.boundAgent == u.actor)
    || (g.mode.SoftClaim? && !Supplied(u.proof) && kind.Text? && lease.Some? && lease.value.released
        && todo.role == "agent" && todo.status == "open" && u.actor == Some(lease.value.owner) && todo.claimedBy == u.actor
        && !RepositoryDiverged(names, Some(todo), lease.value.repository))
    || (kind.Restoration? && !Supplied(u.proof) && todo.role == "agent" && u.actor.Some? && todo.claimedBy == u.actor && !LeaseActive(g, u.todoId))
    || OrdinaryEdit(names, g, todo, u)
  }

  predicate EditAdmitted(names: Naming, g: Goal, todo: Todo, u: Update) {
    var lease := LeaseOf(g, u.todoId);
    match u.edit
    case Reactivate => u.actor.Some? && !Supplied(u.proof)
    case Revise(_, _) =>
      if !g.mode.HardLease? then OrdinaryEdit(names, g, todo, u)
      else
        && (Supplied(u.proof) ==> Fenced(names, g, u.todoId, u.actor, u.proof))
        && (lease.Some? ==> RepositoryKept(names, todo, lease.value, u.actor)
                            && u.actor == Some(lease.value.owner) && todo.claimedBy == u.actor)
    case Pause | Reopen =>
      if !g.mode.HardLease? then OrdinaryEdit(names, g, todo, u)
      else
        && u.actor.Some? && u.actor.value in g.registered
        && (Supplied(u.proof) ==> Fenced(names, g, u.todoId, u.actor, u.proof))
        && (lease.Some? ==> RepositoryKept(names, todo, lease.value, u.actor))
        && (LeaseActive(g, u.todoId) ==> u.edit.Pause? && u.actor == Some(lease.value.owner))
    case Resume =>
      if !g.mode.HardLease? && lease.None? then OrdinaryEdit(names, g, todo, u)
      else u.actor.Some? && u.actor.value in g.registered && !Supplied(u.proof) && !LeaseActive(g, u.todoId)
    case Defer =>
      if g.mode.HardLease? && !Supplied(u.proof)
      then lease.Some? ==> RepositoryKept(names, todo, lease.value, u.actor) && u.actor == Some(lease.value.owner)
      else OrdinaryEdit(names, g, todo, u)
    case Copy(_) => CopyAdmitted(names, g, todo, u)
    case Other(_) => OrdinaryEdit(names, g, todo, u)
  }

  predicate UpdateApplies(names: Naming, g: Goal, u: Update) {
    var todo := TodoOf(g, u.todoId);
    && todo.Some? && !g.mode.Legacy?
    && MayEdit(g, todo.value, u.actor, u.granted && !u.edit.Reactivate?) && Fits(todo.value, u)
    && OwnershipKept(g, todo.value, u) && EditAdmitted(names, g, todo.value, u)
  }

  /** The edit releases the Todo's lease in the same commit. */
  predicate Retires(g: Goal, todo: Todo, u: Update) {
    match u.edit
    case Reactivate => true
    case Pause | Reopen => g.mode.HardLease?
    case Defer | Resume => g.mode.HardLease? || LeaseOf(g, u.todoId).Some?
    case Revise(repository, others) => g.mode.HardLease? && (others || repository != todo.repository)
    case Copy(_) | Other(_) => false
  }

  function ApplyUpdate(names: Naming, g: Goal, u: Update): Goal {
    if !UpdateApplies(names, g, u) then g
    else
      var todo := g.todos[u.todoId];
      g.(todos := g.todos[u.todoId := TodoAfter(todo, u.edit)],
         leases := if Retires(g, todo, u) then Released(g, u.todoId) else g.leases)
  }

  // ---------- claims ----------

  /** How a claim gets its lease: not at all, by an explicit request, or managed by the claim itself. */
  datatype Execution =
    | NoExecution
    | Requested(key: string, expectedVersion: Option<nat>, ttl: nat)
    | Managed(freshKey: string, workspace: Option<Workspace>)

  datatype Claim = Claim(todoId: TodoId, owner: Agent, actor: Option<Agent>, granted: bool, scopes: seq<string>, execution: Execution)

  predicate ExpiredUnder(g: Goal, c: Claim, owner: Agent) {
    && g.mode.HardLease? && c.execution.Managed? && c.todoId in g.leases
    && !g.leases[c.todoId].released && !LeaseActive(g, c.todoId) && g.leases[c.todoId].owner == owner
  }

  /** Another owner's claim yields to a transfer grant or to the expiry of that owner's lease. */
  predicate ClaimYields(g: Goal, c: Claim, existing: Agent) {
    && !(LeaseActive(g, c.todoId) && g.leases[c.todoId].owner == existing)
    && ((c.granted && existing in g.registered) || ExpiredUnder(g, c, existing))
  }

  predicate ClaimAdmitted(g: Goal, c: Claim) {
    var todo := TodoOf(g, c.todoId);
    && todo.Some? && !g.mode.Legacy?
    && c.owner in g.registered && (if c.actor.Some? then c.actor.value == c.owner else |g.registered| <= 1 && !c.execution.Managed?)
    && todo.value.role == "agent" && todo.value.status == "open" && c.owner !in todo.value.excluded
    && (todo.value.claimedBy.Some? && todo.value.claimedBy.value != c.owner ==> ClaimYields(g, c, todo.value.claimedBy.value))
  }

  function WithClaim(g: Goal, c: Claim): Goal
    requires c.todoId in g.todos
  {
    g.(todos := g.todos[c.todoId := g.todos[c.todoId].(claimedBy := Some(c.owner))])
  }

  function RenewalOf(g: Goal, c: Claim): Lifecycle
    requires c.todoId in g.leases
  {
    var lease := g.leases[c.todoId];
    Lifecycle(Renew(lease.ttl), c.todoId, lease.owner, lease.key, Some(lease.version))
  }

  /** A managed claim renews a lease in the last third of its time. */
  predicate DueForRenewal(g: Goal, lease: Lease) {
    3 * (lease.expiresAt - g.now) <= lease.ttl * 1000
  }

  function FreshLease(g: Goal, c: Claim): Acquire
    requires c.execution.Managed?
  {
    Acquire(c.todoId, c.owner, c.execution.freshKey, DEFAULT_TTL_SECONDS, c.scopes, c.execution.workspace,
            Some(VersionOf(LeaseOf(g, c.todoId))))
  }

  function RequestedLease(c: Claim): Acquire
    requires c.execution.Requested?
  {
    Acquire(c.todoId, c.owner, c.execution.key, c.execution.ttl, c.scopes, None, c.execution.expectedVersion)
  }

  ghost function ClaimDecision(names: Naming, g: Goal, c: Claim): Decision
    requires ClaimAdmitted(g, c)
  {
    if g.mode.SoftClaim? then
      if c.execution.Requested? then Rejected(ClaimNeedsHardLease) else NoChange(ClaimOnly)
    else match c.execution
      case NoExecution =>
        if LeaseActive(g, c.todoId) && g.leases[c.todoId].owner == c.owner then NoChange(ClaimOnly) else Rejected(LeaseNeeded)
      case Requested(_, _, _) => DecideAcquire(names, g, RequestedLease(c))
      case Managed(_, _) =>
        if !LeaseActive(g, c.todoId) then DecideAcquire(names, WithClaim(g, c), FreshLease(g, c))
        else if g.leases[c.todoId].owner != c.owner then Rejected(TodoLeaseConflict)
        else if DueForRenewal(g, g.leases[c.todoId]) then DecideLifecycle(names, g, RenewalOf(g, c))
        else NoChange(ClaimOnly)
  }

  ghost predicate ClaimApplies(names: Naming, g: Goal, c: Claim) {
    ClaimAdmitted(g, c) && (ClaimDecision(names, g, c).Apply? || ClaimDecision(names, g, c).NoChange?)
  }

  /** The claim grants a lease, rather than keep or renew one. */
  ghost predicate ClaimAcquires(names: Naming, g: Goal, c: Claim) {
    ClaimApplies(names, g, c) && ClaimDecision(names, g, c).Apply? && !(c.execution.Managed? && LeaseActive(g, c.todoId))
  }

  ghost function ApplyClaim(names: Naming, g: Goal, c: Claim): Goal {
    if !ClaimApplies(names, g, c) then g
    else
      var d := ClaimDecision(names, g, c);
      var claimed := WithClaim(g, c);
      if d.Apply? then claimed.(leases := g.leases[c.todoId := d.next]) else claimed
  }

  // ---------- completion ----------

  /** What completing a user Todo does to the agent Todo that waits for it; the latter's lease is not looked at. */
  datatype Followup = NoFollowup | BlockTarget(target: TodoId) | OpenTarget(target: TodoId)

  datatype Terminal = Terminal(
    todoId: TodoId,
    actor: Option<Agent>,
    granted: bool,
    gateOverride: bool,
    supersede: bool,
    proof: Proof,
    autoAcquire: bool,
    freshKey: string,
    claimAfter: Option<Agent>,
    followup: Followup)

  datatype LeaseEffect = Refused | Kept | Retired | Created

  predicate IdentityEligible(todo: Todo, owner: Agent, registered: set<Agent>) {
    owner in registered && owner !in todo.excluded && (todo.claimedBy.None? || todo.claimedBy.value == owner)
  }

  /** The terminal fence: what completion needs of, and does to, the Todo's own lease. */
  function TerminalFence(names: Naming, g: Goal, todo: Todo, t: Terminal): LeaseEffect {
    var lease, active := LeaseOf(g, t.todoId), LeaseActive(g, t.todoId);
    var effective := active && todo.status == "open" && IdentityEligible(todo, lease.value.owner, g.registered);
    var delegated := Delegated(g, todo, t.actor, t.granted);
    var actorFits := t.actor.Some? && IdentityEligible(todo, t.actor.value, g.registered);
    if !t.supersede && g.mode.HardLease? && todo.role == "user" && todo.taskClass == Some("user_action")
       && todo.boundAgent.Some? && todo.boundAgent == t.actor && !delegated && !active && !Supplied(t.proof) && actorFits then
      if lease.Some? then Retired else Kept
    else if t.supersede && g.mode.HardLease? && todo.role == "agent" && todo.status == "deferred"
            && !delegated && !active && !Supplied(t.proof) && actorFits then
      if lease.Some? then Retired else Kept
    else if g.mode.HardLease? && !delegated && t.autoAcquire && todo.role == "user" && todo.taskClass == Some("user_gate") && !active then
      if !(todo.status == "open" && actorFits) then Refused else if lease.Some? then Retired else Created
    else if !effective then
      if (g.mode.HardLease? && !delegated) || Supplied(t.proof) then Refused else Kept
    else if RepositoryDiverged(names, Some(todo), lease.value.repository) || t.actor != Some(lease.value.owner)
            || t.proof != Proof(Some(lease.value.key), Some(lease.value.version)) then Refused
    else Retired
  }

  predicate TerminalApplies(names: Naming, g: Goal, t: Terminal) {
    var todo := TodoOf(g, t.todoId);
    && todo.Some? && !g.mode.Legacy? && todo.value.status != "done"
    && (MayEdit(g, todo.value, t.actor, t.granted) || (t.gateOverride && !t.supersede && todo.value.role == "user" && todo.value.taskClass == Some("user_gate")))
    && !TerminalFence(names, g, todo.value, t).Refused?
  }

  /** The dependent Todo after the completion, if the followup applies to it. */
  predicate FollowupApplies(g: Goal, source: Todo, t: Terminal, target: TodoId) {
    && !t.supersede && source.role == "user" && TodoOf(g, target).Some? && g.todos[target].role == "agent"
    && (if t.followup.BlockTarget? then source.taskClass == Some("user_gate") && g.todos[target].status in {"open", "blocked"}
        else source.taskClass in {Some("user_gate"), Some("user_action")} && g.todos[target].status == "blocked")
  }

  function TodosAfterTerminal(g: Goal, t: Terminal): map<TodoId, Todo>
    requires t.todoId in g.todos
  {
    var source := g.todos[t.todoId];
    var done := g.todos[t.todoId := source.(status := "done", claimedBy := t.claimAfter)];
    if t.followup.NoFollowup? || !FollowupApplies(g, source, t, t.followup.target) then done
    else done[t.followup.target := g.todos[t.followup.target].(status := if t.followup.BlockTarget? then "blocked" else "open")]
  }

  function LeasesAfterTerminal(names: Naming, g: Goal, t: Terminal): map<TodoId, Lease>
    requires t.todoId in g.todos
  {
    match TerminalFence(names, g, g.todos[t.todoId], t)
    case Retired => Released(g, t.todoId)
    case Created =>
      if t.actor.None? then g.leases
      else g.leases[t.todoId := Lease(t.actor.value, t.freshKey, [], None, None, DEFAULT_TTL_SECONDS, 1, 1, Stamp(g.now), Stamp(g.now), true)]
    case _ => g.leases
  }

  function ApplyTerminal(names: Naming, g: Goal, t: Terminal): Goal {
    if !TerminalApplies(names, g, t) then g
    else g.(todos := TodosAfterTerminal(g, t), leases := LeasesAfterTerminal(names, g, t))
  }

  // ---------- creation, archive and mode ----------

  /** A new record; the head admits no lease without its Todo. */
  predicate CreateApplies(g: Goal, id: TodoId, todo: Todo) {
    && id !in g.todos && id !in g.leases && !todo.archived && todo.status != "done"
    && (todo.claimedBy.Some? ==> todo.claimedBy.value in g.registered)
  }

  function ApplyCreate(g: Goal, id: TodoId, todo: Todo): Goal {
    if CreateApplies(g, id, todo) then g.(todos := g.todos[id := todo]) else g
  }

  /** Only finished Todos are archived, and none comes back. */
  function ApplyArchive(g: Goal, ids: set<TodoId>): Goal {
    if forall id :: id in ids ==> id in g.todos && !g.todos[id].archived && g.todos[id].status == "done"
    then g.(todos := map id | id in g.todos :: if id in ids then g.todos[id].(archived := true) else g.todos[id])
    else g
  }

  predicate ClaimedWork(g: Goal, id: TodoId) {
    id in g.todos && !g.todos[id].archived && g.todos[id].status !in {"done", "deferred"} && g.todos[id].claimedBy.Some?
  }

  /** The mode changes only while nothing is claimed and no lease runs, or by a migration that checks every lease. */
  predicate ModeMayChange(g: Goal, mode: HandoffMode) {
    !mode.Legacy? && (forall id :: id in g.todos ==> !ClaimedWork(g, id)) && (forall id :: id in g.leases ==> !LeaseActive(g, id))
  }

  predicate MigrationReady(g: Goal, mode: HandoffMode) {
    && !mode.Legacy?
    && (forall id :: id in g.todos && ClaimedWork(g, id) ==> g.todos[id].claimedBy.value in g.registered)
    && (forall id :: id in g.leases ==> if mode.SoftClaim? then g.leases[id].released else LeaseActive(g, id) ==> Holds(g, id))
  }

  function ApplyMode(g: Goal, mode: HandoffMode, reviewed: bool): Goal {
    if (if reviewed then MigrationReady(g, mode) else ModeMayChange(g, mode)) then g.(mode := mode) else g
  }
}
