/**
 The task-lease protocol of one Goal.

 An agent acquires a lease on a Todo together with the write scopes it will edit, and later renews,
 transfers or releases it.  Every mutation is one pure decision over the current records; the
 canonical store commits it against one revision, so the model applies decisions atomically.
 Clocks are milliseconds; stored expiry times are whole seconds.
 */
module TaskLease {
  import opened Options
  import opened WriteScopes
  import opened CanonicalScopes

  type Agent = string
  type TodoId = string

  const MAX_SAFE_INTEGER: nat := 9007199254740991

  datatype HandoffMode = Legacy | SoftClaim | HardLease

  /** The facts of a Todo that lease decisions read, or that decide whether they may change. */
  datatype Todo = Todo(
    archived: bool,
    status: string,
    role: string,
    taskClass: Option<string>,
    claimedBy: Option<Agent>,
    boundAgent: Option<Agent>,
    excluded: set<Agent>,
    repository: Option<string>)

  datatype Workspace = Workspace(host: string, commonDirectory: string, worktree: string, repository: string)

  datatype Lease = Lease(
    owner: Agent,
    key: string,
    scopes: seq<string>,
    repository: Option<string>,
    workspace: Option<Workspace>,
    ttl: nat,
    version: nat,
    epoch: nat,
    acquiredAt: int,
    expiresAt: int,
    released: bool)

  datatype Goal = Goal(
    mode: HandoffMode,
    registered: set<Agent>,
    todos: map<TodoId, Todo>,
    leases: map<TodoId, Lease>,
    now: nat)

  /** Host text facts: the case fold of path characters and the lower-casing of repository names. */
  datatype Naming = Naming(fold: Fold, lower: string -> string)

  // ---------- eligibility ----------

  datatype Code =
    | TodoNotFound | TodoNotOpen | InvalidOwner | OwnerNotRegistered | OwnerExcluded
    | OwnerConflictsWithClaim | TodoNotExecutable | ModeForbidsLease | ModeRetired | VersionMismatch
    | VersionRequired | RepositoryDivergence | WorkspaceMismatch | KeyReuse | AcquireReplay | TodoLeaseConflict
    | WriteScopeConflict | GenerationExhausted | LeaseMissing | LeaseNotActive | CasMismatch | ReleaseReplay
    | ClaimNeedsHardLease | ClaimNeedsOpenAgentTodo | ClaimOwnerMismatch | BoundAgentMismatch | LeaseNeeded | ClaimOnly

  /** Archived Todos grant nothing. */
  function TodoOf(g: Goal, id: TodoId): Option<Todo> {
    if id in g.todos && !g.todos[id].archived then Some(g.todos[id]) else None
  }

  function LeaseOf(g: Goal, id: TodoId): Option<Lease> {
    if id in g.leases then Some(g.leases[id]) else None
  }

  /** Why `owner` may not hold execution of the Todo, in the order the reasons are reported. */
  function OwnerRejection(todo: Option<Todo>, owner: Agent, registered: set<Agent>): Option<Code> {
    if todo.None? then Some(TodoNotFound)
    else if todo.value.status != "open" then Some(TodoNotOpen)
    else if owner == "" then Some(InvalidOwner)
    else if owner !in registered then Some(OwnerNotRegistered)
    else if owner in todo.value.excluded then Some(OwnerExcluded)
    else if todo.value.claimedBy.Some? && todo.value.claimedBy.value != owner then Some(OwnerConflictsWithClaim)
    else if todo.value.taskClass == Some("user_action") then Some(TodoNotExecutable)
    else None
  }

  predicate Active(lease: Lease, now: nat) {
    !lease.released && lease.expiresAt > now
  }

  /** The lease grants execution now: unexpired, unreleased, and its owner still eligible. */
  predicate Holds(g: Goal, id: TodoId) {
    && id in g.leases
    && Active(g.leases[id], g.now)
    && OwnerRejection(TodoOf(g, id), g.leases[id].owner, g.registered).None?
  }

  predicate RepositoriesMayOverlap(names: Naming, a: Option<string>, b: Option<string>) {
    a.None? || b.None? || names.lower(a.value) == names.lower(b.value)
  }

  predicate RepositoryDiverged(names: Naming, todo: Option<Todo>, frozen: Option<string>) {
    frozen.Some? && !(todo.Some? && todo.value.repository.Some?
                      && names.lower(frozen.value) == names.lower(todo.value.repository.value))
  }

  predicate SameCheckout(a: Option<Workspace>, b: Option<Workspace>) {
    a.Some? && b.Some? && a.value.host == b.value.host && a.value.worktree == b.value.worktree
  }

  /** Timestamps are stored with their milliseconds cut off. */
  function Stamp(at: nat): int {
    at / 1000 * 1000
  }

  function ExpiryAt(now: nat, ttl: nat): int {
    Stamp(now + ttl * 1000)
  }

  // ---------- acquire ----------

  datatype Acquire = Acquire(
    todoId: TodoId,
    owner: Agent,
    key: string,
    ttl: nat,
    scopes: seq<string>,
    workspace: Option<Workspace>,
    expectedVersion: Option<nat>)

  datatype Decision = Apply(next: Lease) | NoChange(code: Code) | Conflict(code: Code) | Rejected(code: Code)

  function ScopeSet(scopes: seq<string>): set<string> {
    set s | s in scopes
  }

  function VersionOf(lease: Option<Lease>): nat {
    if lease.Some? then lease.value.version else 0
  }

  /** A holding lease on another Todo that an acquire must not be admitted beside. */
  ghost predicate BlocksAcquire(names: Naming, g: Goal, c: Acquire, repository: Option<string>, id: TodoId) {
    && id != c.todoId && Holds(g, id)
    && WriteScopesOverlap(names.fold, c.scopes, g.leases[id].scopes)
    && (SameCheckout(c.workspace, g.leases[id].workspace)
        || (c.workspace.None? && RepositoriesMayOverlap(names, repository, g.leases[id].repository)))
  }

  ghost function DecideAcquire(names: Naming, g: Goal, c: Acquire): Decision {
    var todo, lease := TodoOf(g, c.todoId), LeaseOf(g, c.todoId);
    var rejection := OwnerRejection(todo, c.owner, g.registered);
    if g.mode.SoftClaim? then Rejected(ModeForbidsLease)
    else if rejection.Some? then Rejected(rejection.value)
    else if g.mode.Legacy? then Rejected(ModeRetired)
    else if c.expectedVersion.Some? && c.expectedVersion.value != VersionOf(lease) then Conflict(VersionMismatch)
    else if Holds(g, c.todoId) then
      if RepositoryDiverged(names, todo, lease.value.repository) then Rejected(RepositoryDivergence)
      else if lease.value.owner == c.owner && lease.value.key == c.key then
        if ScopeSet(Comparison(lease.value.scopes)) == ScopeSet(Comparison(c.scopes)) && lease.value.ttl == c.ttl
           && lease.value.workspace == c.workspace
        then NoChange(AcquireReplay) else Rejected(KeyReuse)
      else Conflict(TodoLeaseConflict)
    else if lease.Some? && lease.value.key == c.key then Rejected(KeyReuse)
    else
      var repository := todo.value.repository;
      if c.workspace.Some? && !(repository.Some? && names.lower(c.workspace.value.repository) == names.lower(repository.value))
      then Rejected(WorkspaceMismatch)
      else if exists id :: id in g.leases && BlocksAcquire(names, g, c, repository, id) then Conflict(WriteScopeConflict)
      else
        var epoch := if lease.Some? then lease.value.epoch else 0;
        if VersionOf(lease) >= MAX_SAFE_INTEGER || epoch >= MAX_SAFE_INTEGER then Rejected(GenerationExhausted)
        else Apply(Lease(c.owner, c.key, Comparison(c.scopes), repository, c.workspace, c.ttl,
                         VersionOf(lease) + 1, epoch + 1, Stamp(g.now), ExpiryAt(g.now, c.ttl), false))
  }

  // ---------- renew, transfer, release ----------

  datatype Operation = Renew(ttl: nat) | Transfer(newOwner: Agent, newKey: string, ttl: nat, withClaim: bool) | Release

  datatype Lifecycle = Lifecycle(
    operation: Operation,
    todoId: TodoId,
    owner: Agent,
    key: string,
    expectedVersion: Option<nat>)

  /** Why a registered actor may not change the Todo. */
  function ActorRejection(todo: Todo, actor: Agent, registered: set<Agent>): Option<Code> {
    if actor !in registered then Some(OwnerNotRegistered)
    else if actor in todo.excluded then Some(OwnerExcluded)
    else if todo.boundAgent.Some? && todo.boundAgent.value != actor then Some(BoundAgentMismatch)
    else if todo.claimedBy.Some? && todo.claimedBy.value != actor then Some(ClaimOwnerMismatch)
    else None
  }

  /** Rejection of the Todo half of a transfer that also moves the claim. */
  function ClaimRejection(g: Goal, c: Lifecycle): Option<Code> {
    if !(c.operation.Transfer? && c.operation.withClaim) then None
    else if !g.mode.HardLease? then Some(ClaimNeedsHardLease)
    else
      var todo := TodoOf(g, c.todoId);
      if todo.None? || todo.value.status != "open" || todo.value.role != "agent" then Some(ClaimNeedsOpenAgentTodo)
      else if todo.value.claimedBy != Some(c.owner) then Some(ClaimOwnerMismatch)
      else
        var source := ActorRejection(todo.value, c.owner, g.registered);
        if source.Some? then source
        else ActorRejection(todo.value.(claimedBy := Some(c.operation.newOwner)), c.operation.newOwner, g.registered)
  }

  /** The Todos after the claim half of a transfer. */
  function TodosAfterClaim(g: Goal, c: Lifecycle): map<TodoId, Todo> {
    if c.operation.Transfer? && c.operation.withClaim && c.todoId in g.todos
    then g.todos[c.todoId := g.todos[c.todoId].(claimedBy := Some(c.operation.newOwner))]
    else g.todos
  }

  function DecideLifecycle(names: Naming, g: Goal, c: Lifecycle): Decision {
    var claim := ClaimRejection(g, c);
    var todo, lease := TodoOf(g.(todos := TodosAfterClaim(g, c)), c.todoId), LeaseOf(g, c.todoId);
    var holder := if c.operation.Transfer? then c.operation.newOwner else c.owner;
    var rejection := if c.operation.Release? then None else OwnerRejection(todo, holder, g.registered);
    if claim.Some? then Rejected(claim.value)
    else if !c.operation.Release? && g.mode.SoftClaim? then Rejected(ModeForbidsLease)
    else if c.expectedVersion.None? then Rejected(VersionRequired)
    else if c.operation.Transfer? && c.owner !in g.registered then Rejected(OwnerNotRegistered)
    else if rejection.Some? then Rejected(rejection.value)
    else if !c.operation.Release? && lease.Some? && RepositoryDiverged(names, todo, lease.value.repository) then
      Rejected(RepositoryDivergence)
    else if c.expectedVersion.value != VersionOf(lease) then Conflict(VersionMismatch)
    else if c.operation.Release? then
      if lease.None? then NoChange(LeaseMissing)
      else if lease.value.owner != c.owner || lease.value.key != c.key then Rejected(CasMismatch)
      else if lease.value.released then NoChange(ReleaseReplay)
      else Apply(lease.value.(released := true))
    else if g.mode.Legacy? then Rejected(ModeRetired)
    else if lease.None? || !Active(lease.value, g.now) then Rejected(LeaseNotActive)
    else if lease.value.owner != c.owner || lease.value.key != c.key then Rejected(CasMismatch)
    else if c.operation.Transfer? then
      if c.operation.newKey == c.key then Rejected(KeyReuse)
      else if lease.value.version >= MAX_SAFE_INTEGER || lease.value.epoch >= MAX_SAFE_INTEGER then
        Rejected(GenerationExhausted)
      else Apply(lease.value.(owner := c.operation.newOwner, key := c.operation.newKey,
                              version := lease.value.version + 1, epoch := lease.value.epoch + 1,
                              expiresAt := ExpiryAt(g.now, c.operation.ttl)))
    else if lease.value.version >= MAX_SAFE_INTEGER then Rejected(GenerationExhausted)
    else Apply(lease.value.(version := lease.value.version + 1, expiresAt := ExpiryAt(g.now, c.operation.ttl)))
  }

  // ---------- applying a decision ----------

  ghost function ApplyAcquire(names: Naming, g: Goal, c: Acquire): Goal {
    var d := DecideAcquire(names, g, c);
    if d.Apply? then g.(leases := g.leases[c.todoId := d.next]) else g
  }

  function ApplyLifecycle(names: Naming, g: Goal, c: Lifecycle): Goal {
    var d := DecideLifecycle(names, g, c);
    if d.Apply? then g.(leases := g.leases[c.todoId := d.next], todos := TodosAfterClaim(g, c)) else g
  }

  // ---------- mutual exclusion ----------

  /** A shared lease on a possibly shared repository, requested after a worktree lease on it. */
  predicate RequestedAfter(names: Naming, a: Lease, b: Lease) {
    && a.workspace.None? && b.workspace.Some? && a.acquiredAt > b.acquiredAt
    && RepositoriesMayOverlap(names, a.repository, b.repository)
  }

  /** The two leases write to one place, so far as admission can know. */
  predicate SamePlace(names: Naming, a: Lease, b: Lease) {
    || SameCheckout(a.workspace, b.workspace)
    || (a.workspace.None? && b.workspace.None? && RepositoriesMayOverlap(names, a.repository, b.repository))
    || RequestedAfter(names, a, b) || RequestedAfter(names, b, a)
  }

  /**
   Two leases that must not hold together: overlapping scopes in one physical checkout; or, without
   verified worktrees, in repositories that may be the same; or a lease without worktree that was
   acquired later than one with a worktree.  (The other order is only an advisory.)
   */
  ghost predicate Collide(names: Naming, a: Lease, b: Lease) {
    SamePlace(names, a, b) && SomePairOverlaps(names.fold, Meant(a.scopes), Meant(b.scopes))
  }

  ghost predicate Exclusive(names: Naming, g: Goal) {
    forall i, j :: Holds(g, i) && Holds(g, j) && i != j ==> !Collide(names, g.leases[i], g.leases[j])
  }

  /** The lease would collide with no holder, apart from the given Todos. */
  ghost predicate Apart(names: Naming, g: Goal, except: set<TodoId>, lease: Lease) {
    forall j :: j !in except && Holds(g, j) ==> !Collide(names, lease, g.leases[j])
  }

  /** Acquisition stamps are whole seconds of the past. */
  predicate Stamped(g: Goal) {
    forall id :: id in g.leases ==> g.leases[id].acquiredAt <= Stamp(g.now)
  }

  lemma CollideIsSymmetric(names: Naming, a: Lease, b: Lease)
    ensures Collide(names, a, b) == Collide(names, b, a)
  {
    OverlapIsSymmetric(names.fold, Meant(a.scopes), Meant(b.scopes));
  }

  predicate SameGrant(a: Lease, b: Lease) {
    a.scopes == b.scopes && a.workspace == b.workspace && a.repository == b.repository && a.acquiredAt == b.acquiredAt
  }

  lemma SameGrantsCollideAlike(names: Naming, a: Lease, a': Lease, b: Lease)
    requires SameGrant(a, a')
    ensures Collide(names, a, b) == Collide(names, a', b)
  {
  }

  lemma HoldersHaveLeases(g: Goal)
    ensures forall id :: Holds(g, id) ==> id in g.leases
  {
  }

  /** After a step that grants one lease and wakes no other, exclusion is a question about the granted lease. */
  lemma ExclusiveAfterGrant(names: Naming, g: Goal, g': Goal, id: TodoId)
    requires Exclusive(names, g) && Holds(g', id) && Apart(names, g, {id}, g'.leases[id])
    requires forall j :: j != id && Holds(g', j) ==> Holds(g, j) && LeaseOf(g', j) == LeaseOf(g, j)
    ensures Exclusive(names, g')
  {
    hide Collide, Holds;
    HoldersHaveLeases(g);
    HoldersHaveLeases(g');
    forall j | j != id && Holds(g', j) ensures !Collide(names, g'.leases[j], g'.leases[id]) {
      CollideIsSymmetric(names, g'.leases[id], g'.leases[j]);
    }
  }

  /** Every lease that holds after the step has the grant it had before. */
  ghost predicate GrantsKept(g: Goal, g': Goal) {
    forall j :: Holds(g', j) ==> j in g.leases && SameGrant(g.leases[j], g'.leases[j])
  }

  lemma KeptPairCollidesAlike(names: Naming, g: Goal, g': Goal, i: TodoId, j: TodoId)
    requires GrantsKept(g, g') && Holds(g', i) && Holds(g', j)
    ensures Collide(names, g'.leases[i], g'.leases[j]) == Collide(names, g.leases[i], g.leases[j])
    ensures Collide(names, g.leases[i], g.leases[j]) == Collide(names, g.leases[j], g.leases[i])
  {
    hide Collide;
    SameGrantsCollideAlike(names, g.leases[i], g'.leases[i], g'.leases[j]);
    CollideIsSymmetric(names, g.leases[i], g'.leases[j]);
    SameGrantsCollideAlike(names, g.leases[j], g'.leases[j], g.leases[i]);
    CollideIsSymmetric(names, g.leases[i], g.leases[j]);
  }

  /** A step that grants nothing and wakes at most one lease keeps exclusion exactly when a woken lease is apart. */
  lemma ExclusiveAfterWaking(names: Naming, g: Goal, g': Goal, id: TodoId)
    requires Exclusive(names, g) && GrantsKept(g, g')
    requires forall j :: j != id && Holds(g', j) ==> Holds(g, j)
    ensures Exclusive(names, g') <==>
            (Holds(g', id) && !Holds(g, id) ==> forall j :: j != id && Holds(g', j) ==> !Collide(names, g.leases[id], g.leases[j]))
  {
    hide Collide, Holds;
    HoldersHaveLeases(g);
    HoldersHaveLeases(g');
    forall i, j | Holds(g', i) && Holds(g', j) { KeptPairCollidesAlike(names, g, g', i, j); }
  }

  /** A step that grants nothing and wakes nothing keeps exclusion. */
  lemma ExclusiveAfterShrinking(names: Naming, g: Goal, g': Goal)
    requires Exclusive(names, g) && GrantsKept(g, g') && forall j :: Holds(g', j) ==> Holds(g, j)
    ensures Exclusive(names, g')
  {
    hide Collide, Holds;
    HoldersHaveLeases(g);
    HoldersHaveLeases(g');
    forall i, j | Holds(g', i) && Holds(g', j) { KeptPairCollidesAlike(names, g, g', i, j); }
  }

  /** An acquire that is not blocked by a lease of the past does not collide with it. */
  lemma UnblockedIsApart(names: Naming, c: Acquire, granted: Lease, other: Lease)
    requires granted.scopes == Comparison(c.scopes) && granted.workspace == c.workspace && other.acquiredAt <= granted.acquiredAt
    requires !(WriteScopesOverlap(names.fold, c.scopes, other.scopes)
               && (SameCheckout(c.workspace, other.workspace)
                   || (c.workspace.None? && RepositoriesMayOverlap(names, granted.repository, other.repository))))
    ensures !Collide(names, granted, other)
  {
    hide Comparison, ScopePairOverlaps;
    ComparisonIsSettled(c.scopes);
    if SomePairOverlaps(names.fold, Comparison(c.scopes), Meant(other.scopes)) {
      ComparisonLosesNothing(names.fold, Comparison(c.scopes), other.scopes);
    }
  }

  /** Every admitted acquire holds at once and keeps exclusion. */
  lemma AcquireKeepsExclusion(names: Naming, g: Goal, c: Acquire)
    requires Exclusive(names, g) && Stamped(g) && c.ttl > 0 && DecideAcquire(names, g, c).Apply?
    ensures Holds(ApplyAcquire(names, g, c), c.todoId)
    ensures Exclusive(names, ApplyAcquire(names, g, c))
  {
    hide Comparison, WriteScopesOverlap, ScopePairOverlaps, SomePairOverlaps, Settled, Collide;
    var g' := ApplyAcquire(names, g, c);
    var repository := TodoOf(g, c.todoId).value.repository;
    forall j | j != c.todoId && Holds(g, j) ensures !Collide(names, g'.leases[c.todoId], g.leases[j]) {
      assert !BlocksAcquire(names, g, c, repository, j);
      UnblockedIsApart(names, c, g'.leases[c.todoId], g.leases[j]);
    }
    ExclusiveAfterGrant(names, g, g', c.todoId);
  }

  lemma OtherTodosKeepTheirHold(names: Naming, g: Goal, c: Lifecycle, j: TodoId)
    requires j != c.todoId
    ensures Holds(ApplyLifecycle(names, g, c), j) == Holds(g, j)
    ensures LeaseOf(ApplyLifecycle(names, g, c), j) == LeaseOf(g, j)
  {
  }

  /** Renewals and releases always keep exclusion. */
  lemma RenewAndReleaseKeepExclusion(names: Naming, g: Goal, c: Lifecycle)
    requires Exclusive(names, g) && !c.operation.Transfer?
    ensures Exclusive(names, ApplyLifecycle(names, g, c))
  {
    hide Collide;
    var g' := ApplyLifecycle(names, g, c);
    forall j | j != c.todoId { OtherTodosKeepTheirHold(names, g, c, j); }
    ExclusiveAfterShrinking(names, g, g');
  }

  /**
   A transfer does not look at other leases.  It keeps exclusion exactly when the lease it moves was
   still holding, or collides with nothing that holds.
   */
  lemma TransferKeepsExclusionIff(names: Naming, g: Goal, c: Lifecycle)
    requires Exclusive(names, g) && c.operation.Transfer? && c.operation.ttl > 0 && DecideLifecycle(names, g, c).Apply?
    ensures Exclusive(names, ApplyLifecycle(names, g, c))
       <==> Holds(g, c.todoId) || Apart(names, g, {c.todoId}, g.leases[c.todoId])
  {
    hide Collide;
    forall j | j != c.todoId { OtherTodosKeepTheirHold(names, g, c, j); }
    ExclusiveAfterWaking(names, g, ApplyLifecycle(names, g, c), c.todoId);
  }

  /** A transfer that carries the Todo claim along is admitted only from a holding lease. */
  lemma ClaimTransferMovesAHolder(names: Naming, g: Goal, c: Lifecycle)
    requires c.operation.Transfer? && c.operation.withClaim && c.owner != "" && DecideLifecycle(names, g, c).Apply?
    ensures Holds(g, c.todoId)
  {
  }
}
