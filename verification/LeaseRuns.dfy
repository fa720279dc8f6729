/** Safety of whole runs of the lease protocol. */
module LeaseRuns {
  import opened Options
  import opened WriteScopes
  import opened CanonicalScopes
  import opened TaskLease
  import opened TodoLifecycle
  import opened LeaseSteps
  import opened LeaseAlignment

  ghost predicate Run(names: Naming, states: seq<Goal>, actions: seq<Action>) {
    && |states| == |actions| + 1
    && forall i :: 0 <= i < |actions| ==> WellFormed(actions[i]) && states[i + 1] == Next(names, states[i], actions[i])
  }

  // ---------- exclusion over runs ----------

  lemma {:induction false} StampedUpTo(names: Naming, states: seq<Goal>, actions: seq<Action>, k: nat)
    requires Run(names, states, actions) && k < |states| && Stamped(states[0])
    ensures Stamped(states[k])
  {
    hide Stamped, Next, WellFormed;
    if k > 0 {
      StampedUpTo(names, states, actions, k - 1);
      StepKeepsStamps(names, states[k - 1], actions[k - 1]);
    }
  }

  lemma {:induction false} ExclusiveUpTo(names: Naming, states: seq<Goal>, actions: seq<Action>, k: nat)
    requires Run(names, states, actions) && k < |states| && Exclusive(names, states[0]) && Stamped(states[0])
    requires forall i :: 0 <= i < |actions| ==> Harmless(names, states[i], actions[i])
    ensures Exclusive(names, states[k])
  {
    hide Exclusive, Harmless, Stamped, Next, WellFormed;
    if k > 0 {
      ExclusiveUpTo(names, states, actions, k - 1);
      StampedUpTo(names, states, actions, k - 1);
      StepKeepsExclusionIff(names, states[k - 1], actions[k - 1]);
    }
  }

  /** Holders never collide in any state of a run, exactly when each of its steps is harmless in the state it starts from. */
  lemma RunKeepsExclusionIff(names: Naming, states: seq<Goal>, actions: seq<Action>)
    requires Run(names, states, actions) && Exclusive(names, states[0]) && Stamped(states[0])
    ensures (forall k :: 0 <= k < |states| ==> Exclusive(names, states[k])) <==>
            (forall i :: 0 <= i < |actions| ==> Harmless(names, states[i], actions[i]))
  {
    hide Exclusive, Harmless, Stamped, Next, WellFormed;
    if forall k :: 0 <= k < |states| ==> Exclusive(names, states[k]) {
      forall i | 0 <= i < |actions| ensures Harmless(names, states[i], actions[i]) {
        assert Exclusive(names, states[i + 1]);
        StampedUpTo(names, states, actions, i);
        StepKeepsExclusionIff(names, states[i], actions[i]);
      }
    }
    if forall i :: 0 <= i < |actions| ==> Harmless(names, states[i], actions[i]) {
      forall k | 0 <= k < |states| ensures Exclusive(names, states[k]) {
        ExclusiveUpTo(names, states, actions, k);
      }
    }
  }

  lemma {:induction false} AlignedUpTo(names: Naming, states: seq<Goal>, actions: seq<Action>, k: nat)
    requires Run(names, states, actions) && k < |states| && Aligned(states[0])
    ensures Aligned(states[k])
  {
    hide Aligned, Next, WellFormed;
    if k > 0 {
      AlignedUpTo(names, states, actions, k - 1);
      StepKeepsAlignment(names, states[k - 1], actions[k - 1]);
    }
  }

  /**
   The protocol is safe: from an aligned, exclusive head, whatever commands are given, holders never collide,
   so long as no step registers the owner of a running lease anew and no user's decision opens a Todo
   under a running lease.
   */
  lemma CarefulRunsKeepExclusion(names: Naming, states: seq<Goal>, actions: seq<Action>, k: nat)
    requires Run(names, states, actions) && k < |states|
    requires Exclusive(names, states[0]) && Stamped(states[0]) && Aligned(states[0])
    requires forall i :: 0 <= i < |actions| ==> Careful(names, states[i], actions[i])
    ensures Exclusive(names, states[k])
  {
    hide Exclusive, Harmless, Stamped, Aligned, Careful, Next, WellFormed;
    forall i | 0 <= i < |actions| ensures Harmless(names, states[i], actions[i]) {
      AlignedUpTo(names, states, actions, i);
      CarefulStepsAreHarmless(names, states[i], actions[i]);
    }
    ExclusiveUpTo(names, states, actions, k);
  }

  ghost predicate LeaseCovers(names: Naming, lease: Lease, path: string) {
    exists i :: 0 <= i < |Meant(lease.scopes)| && Covers(names.fold, Meant(lease.scopes)[i], path)
  }

  /** Leases that do not collide share no path in one place. */
  lemma ApartLeasesShareNoPath(names: Naming, a: Lease, b: Lease, path: string)
    requires CaseTable(names.fold) && !Collide(names, a, b) && SamePlace(names, a, b)
    ensures !(LeaseCovers(names, a, path) && LeaseCovers(names, b, path))
  {
    hide CaseTable, Covers, ScopePairOverlaps, SamePlace, Settled;
    if LeaseCovers(names, a, path) && LeaseCovers(names, b, path) {
      var m :| 0 <= m < |Meant(a.scopes)| && Covers(names.fold, Meant(a.scopes)[m], path);
      var n :| 0 <= n < |Meant(b.scopes)| && Covers(names.fold, Meant(b.scopes)[n], path);
      SharedPathOverlaps(names.fold, Meant(a.scopes)[m], Meant(b.scopes)[n], path);
      assert false;
    }
  }

  /**
   In every state of a harmless run no path is writable under two leases that hold in one place, whatever
   case alias either agent uses for it.  A lease without worktree shares its place with every earlier
   worktree lease on a repository that may be its own.
   */
  lemma NoPathHasTwoWriters(names: Naming, states: seq<Goal>, actions: seq<Action>, k: nat, i: TodoId, j: TodoId, path: string)
    requires CaseTable(names.fold)
    requires Run(names, states, actions) && k < |states| && Exclusive(names, states[0]) && Stamped(states[0])
    requires forall n :: 0 <= n < |actions| ==> Harmless(names, states[n], actions[n])
    requires i != j && Holds(states[k], i) && Holds(states[k], j) && SamePlace(names, states[k].leases[i], states[k].leases[j])
    ensures !(LeaseCovers(names, states[k].leases[i], path) && LeaseCovers(names, states[k].leases[j], path))
  {
    hide CaseTable, Harmless, Stamped, Run, LeaseCovers, SamePlace, Collide;
    ExclusiveUpTo(names, states, actions, k);
    ApartLeasesShareNoPath(names, states[k].leases[i], states[k].leases[j], path);
  }

  /** End to end: in every state of every careful run from an aligned, exclusive head, no path has two writers. */
  lemma CarefulRunsHaveOneWriter(names: Naming, states: seq<Goal>, actions: seq<Action>, k: nat, i: TodoId, j: TodoId, path: string)
    requires CaseTable(names.fold)
    requires Run(names, states, actions) && k < |states|
    requires Exclusive(names, states[0]) && Stamped(states[0]) && Aligned(states[0])
    requires forall n :: 0 <= n < |actions| ==> Careful(names, states[n], actions[n])
    requires i != j && Holds(states[k], i) && Holds(states[k], j) && SamePlace(names, states[k].leases[i], states[k].leases[j])
    ensures !(LeaseCovers(names, states[k].leases[i], path) && LeaseCovers(names, states[k].leases[j], path))
  {
    hide CaseTable, Careful, Stamped, Aligned, Run, LeaseCovers, SamePlace, Collide;
    CarefulRunsKeepExclusion(names, states, actions, k);
    ApartLeasesShareNoPath(names, states[k].leases[i], states[k].leases[j], path);
  }

  // ---------- fencing ----------

  /** How one Todo's lease record may differ between an earlier and a later state. */
  predicate Evolves(l: Lease, m: Lease) {
    && l.version <= m.version && l.epoch <= m.epoch
    && (l.epoch < m.epoch ==> l.version < m.version)
    && (l.epoch == m.epoch ==>
          && m.(version := l.version, expiresAt := l.expiresAt, released := l.released) == l
          && (l.released ==> m.released))
    && (l.version == m.version ==> m == l || m == l.(released := true))
  }

  lemma ClaimEvolves(names: Naming, g: Goal, c: Claim, id: TodoId)
    requires id in g.leases
    ensures id in ApplyClaim(names, g, c).leases && Evolves(g.leases[id], ApplyClaim(names, g, c).leases[id])
  {
  }

  lemma TerminalEvolves(names: Naming, g: Goal, t: Terminal, id: TodoId)
    requires id in g.leases
    ensures var m := ApplyTerminal(names, g, t).leases;
            id in m && (m[id] == g.leases[id] || m[id] == g.leases[id].(released := true))
  {
  }

  lemma UpdateEvolves(names: Naming, g: Goal, u: Update, id: TodoId)
    requires id in g.leases
    ensures var m := ApplyUpdate(names, g, u).leases;
            id in m && (m[id] == g.leases[id] || m[id] == g.leases[id].(released := true))
  {
    hide UpdateApplies, Retires;
  }

  lemma LeaseCommandEvolves(names: Naming, g: Goal, a: Action, id: TodoId)
    requires id in g.leases && (a.DoAcquire? || a.DoLifecycle?)
    ensures id in Next(names, g, a).leases && Evolves(g.leases[id], Next(names, g, a).leases[id])
  {
  }

  lemma StepEvolves(names: Naming, g: Goal, a: Action, id: TodoId)
    requires id in g.leases
    ensures id in Next(names, g, a).leases && Evolves(g.leases[id], Next(names, g, a).leases[id])
  {
    hide ApplyAcquire, ApplyLifecycle, ApplyUpdate, ApplyClaim, ApplyTerminal;
    match a {
      case DoUpdate(u) => UpdateEvolves(names, g, u, id);
      case DoClaim(c) => ClaimEvolves(names, g, c, id);
      case DoTerminal(t) => TerminalEvolves(names, g, t, id);
      case DoAcquire(_) => LeaseCommandEvolves(names, g, a, id);
      case DoLifecycle(_) => LeaseCommandEvolves(names, g, a, id);
      case _ =>
    }
  }

  /**
   Over every run, whatever else changes: versions and epochs never fall, one epoch names one owner, key
   and grant, one version names one record up to its release, and a released epoch stays released.
   */
  lemma {:induction false} RunEvolves(names: Naming, states: seq<Goal>, actions: seq<Action>, i: nat, j: nat, id: TodoId)
    requires Run(names, states, actions) && i <= j < |states| && id in states[i].leases
    ensures id in states[j].leases && Evolves(states[i].leases[id], states[j].leases[id])
    decreases j - i
  {
    hide Next, WellFormed;
    if i < j {
      StepEvolves(names, states[i], actions[i], id);
      RunEvolves(names, states, actions, i + 1, j, id);
    }
  }

  /** A released generation never holds again: whatever holds later was granted later. */
  lemma ReleasedGenerationNeverHolds(names: Naming, states: seq<Goal>, actions: seq<Action>, i: nat, j: nat, id: TodoId)
    requires Run(names, states, actions) && i <= j < |states| && id in states[i].leases && states[i].leases[id].released
    requires Holds(states[j], id)
    ensures states[j].leases[id].epoch > states[i].leases[id].epoch
  {
    hide Run;
    RunEvolves(names, states, actions, i, j, id);
  }

  /** The one completion that checks no proof: a user gate without a running lease, which acquires its lease by itself. */
  predicate ChecksNoProof(g: Goal, t: Terminal) {
    && g.mode.HardLease? && t.autoAcquire && t.todoId in g.todos && !LeaseActive(g, t.todoId)
    && g.todos[t.todoId].role == "user" && g.todos[t.todoId].taskClass == Some("user_gate")
    && !Delegated(g, g.todos[t.todoId], t.actor, t.granted)
  }

  /** The step is on this Todo and is checked against this version. */
  predicate NamesVersion(g: Goal, a: Action, id: TodoId, v: nat) {
    match a
    case DoAcquire(c) => c.todoId == id && c.expectedVersion == Some(v)
    case DoLifecycle(c) => c.todoId == id && c.expectedVersion == Some(v)
    case DoUpdate(u) => u.todoId == id && u.proof.version == Some(v)
    case DoClaim(c) => c.todoId == id && c.execution.Requested? && c.execution.expectedVersion == Some(v)
    case DoTerminal(t) => t.todoId == id && t.proof.version == Some(v) && !ChecksNoProof(g, t)
    case _ => false
  }

  /** The step changes the lease record of a Todo. */
  ghost predicate ChangesLease(names: Naming, g: Goal, a: Action, id: TodoId) {
    LeaseOf(Next(names, g, a), id) != LeaseOf(g, id)
  }

  /** The step releases a lease and changes nothing else of its record. */
  ghost predicate OnlyReleases(names: Naming, g: Goal, a: Action, id: TodoId) {
    && id in g.leases && !g.leases[id].released
    && LeaseOf(Next(names, g, a), id) == Some(g.leases[id].(released := true))
  }

  /** A step that names a version and changes the lease found that version, and releases or raises it. */
  ghost predicate SpendsVersion(names: Naming, g: Goal, a: Action, id: TodoId, v: nat) {
    && VersionOf(LeaseOf(g, id)) == v && id in Next(names, g, a).leases
    && (OnlyReleases(names, g, a, id) || Next(names, g, a).leases[id].version == v + 1)
    && (id in g.leases && g.leases[id].released ==> a.DoAcquire? || a.DoClaim?)
  }

  lemma LeaseCommandSpends(names: Naming, g: Goal, a: Action, id: TodoId, v: nat)
    requires (a.DoAcquire? || a.DoLifecycle?) && NamesVersion(g, a, id, v) && ChangesLease(names, g, a, id)
    ensures SpendsVersion(names, g, a, id, v)
  {
  }

  lemma UpdateSpends(names: Naming, g: Goal, u: Update, id: TodoId, v: nat)
    requires NamesVersion(g, DoUpdate(u), id, v) && ChangesLease(names, g, DoUpdate(u), id)
    ensures SpendsVersion(names, g, DoUpdate(u), id, v)
  {
  }

  lemma ClaimSpends(names: Naming, g: Goal, c: Claim, id: TodoId, v: nat)
    requires NamesVersion(g, DoClaim(c), id, v) && ChangesLease(names, g, DoClaim(c), id)
    ensures SpendsVersion(names, g, DoClaim(c), id, v)
  {
  }

  lemma TerminalSpends(names: Naming, g: Goal, t: Terminal, id: TodoId, v: nat)
    requires NamesVersion(g, DoTerminal(t), id, v) && ChangesLease(names, g, DoTerminal(t), id)
    ensures SpendsVersion(names, g, DoTerminal(t), id, v)
  {
  }

  lemma NamedChangeSpends(names: Naming, g: Goal, a: Action, id: TodoId, v: nat)
    requires NamesVersion(g, a, id, v) && ChangesLease(names, g, a, id)
    ensures SpendsVersion(names, g, a, id, v)
  {
    hide Next, ChangesLease, SpendsVersion;
    match a {
      case DoUpdate(u) => UpdateSpends(names, g, u, id, v);
      case DoClaim(c) => ClaimSpends(names, g, c, id, v);
      case DoTerminal(t) => TerminalSpends(names, g, t, id, v);
      case _ => LeaseCommandSpends(names, g, a, id, v);
    }
  }

  /**
   An expected version is spent once.  If two steps of one run, of whatever kind, name one version of one
   Todo's lease and both change its record, then the first only releases it and the second acquires: a
   release keeps the version.
   */
  lemma ExpectedVersionIsSpentOnce(names: Naming, states: seq<Goal>, actions: seq<Action>, i: nat, j: nat, id: TodoId, v: nat)
    requires Run(names, states, actions) && i < j < |actions|
    requires NamesVersion(states[i], actions[i], id, v) && ChangesLease(names, states[i], actions[i], id)
    requires NamesVersion(states[j], actions[j], id, v) && ChangesLease(names, states[j], actions[j], id)
    ensures OnlyReleases(names, states[i], actions[i], id) && (actions[j].DoAcquire? || actions[j].DoClaim?)
  {
    hide Next, WellFormed, NamesVersion, ChangesLease;
    assert states[i + 1] == Next(names, states[i], actions[i]);
    NamedChangeSpends(names, states[i], actions[i], id, v);
    NamedChangeSpends(names, states[j], actions[j], id, v);
    RunEvolves(names, states, actions, i + 1, j, id);
  }

  /** The agent on whose behalf the step is taken. */
  function ActorOf(a: Action): Option<Agent> {
    match a
    case DoAcquire(c) => Some(c.owner)
    case DoLifecycle(c) => Some(c.owner)
    case DoUpdate(u) => u.actor
    case DoClaim(c) => Some(c.owner)
    case DoTerminal(t) => t.actor
    case _ => None
  }

  /** The step names the lease's owner, key and current version. */
  predicate Proves(a: Action, lease: Lease) {
    && a.DoLifecycle? && a.lifecycle.owner == lease.owner && a.lifecycle.key == lease.key
    && a.lifecycle.expectedVersion == Some(lease.version)
  }

  lemma LeaseCommandTouches(names: Naming, g: Goal, a: Action, id: TodoId)
    requires (a.DoAcquire? || a.DoLifecycle?) && Holds(g, id) && Next(names, g, a).leases[id] != g.leases[id]
    ensures Proves(a, g.leases[id]) && a.lifecycle.todoId == id
    ensures Next(names, g, a).leases[id].owner != g.leases[id].owner ==> a.lifecycle.operation.Transfer?
  {
  }

  lemma UpdateTouches(names: Naming, g: Goal, u: Update, id: TodoId)
    requires Holds(g, id) && id in ApplyUpdate(names, g, u).leases && ApplyUpdate(names, g, u).leases[id] != g.leases[id]
    ensures u.actor == Some(g.leases[id].owner) && u.todoId == id && ApplyUpdate(names, g, u).leases[id] == g.leases[id].(released := true)
  {
  }

  lemma TerminalTouches(names: Naming, g: Goal, t: Terminal, id: TodoId)
    requires Holds(g, id) && id in ApplyTerminal(names, g, t).leases && ApplyTerminal(names, g, t).leases[id] != g.leases[id]
    ensures t.actor == Some(g.leases[id].owner) && t.proof == Proof(Some(g.leases[id].key), Some(g.leases[id].version))
    ensures t.todoId == id && ApplyTerminal(names, g, t).leases[id] == g.leases[id].(released := true)
  {
  }

  lemma ClaimTouches(names: Naming, g: Goal, c: Claim, id: TodoId)
    requires Holds(g, id) && id in ApplyClaim(names, g, c).leases && ApplyClaim(names, g, c).leases[id] != g.leases[id]
    ensures var l, m := g.leases[id], ApplyClaim(names, g, c).leases[id];
            c.todoId == id && c.owner == l.owner && m == l.(version := l.version + 1, expiresAt := m.expiresAt)
  {
  }

  /**
   While a lease holds, only its owner changes the record: by a lease command that proves key and version,
   by a claim that renews it, or by a Todo command that retires it.  Nothing but a proven transfer gives it
   to another agent, and a retirement only marks it released.
   */
  lemma OnlyTheOwnerTouchesALease(names: Naming, g: Goal, a: Action, id: TodoId)
    requires Holds(g, id) && id in Next(names, g, a).leases && Next(names, g, a).leases[id] != g.leases[id]
    ensures ActorOf(a) == Some(g.leases[id].owner)
    ensures var l, m := g.leases[id], Next(names, g, a).leases[id];
            || Proves(a, l)
            || (a.DoClaim? && m == l.(version := l.version + 1, expiresAt := m.expiresAt))
            || ((a.DoUpdate? || a.DoTerminal?) && m == l.(released := true))
    ensures Next(names, g, a).leases[id].owner != g.leases[id].owner ==> a.DoLifecycle? && a.lifecycle.operation.Transfer?
  {
    hide Holds, ApplyAcquire, ApplyLifecycle, ApplyUpdate, ApplyClaim, ApplyTerminal;
    HoldersHaveLeases(g);
    match a {
      case DoAcquire(_) => LeaseCommandTouches(names, g, a, id);
      case DoLifecycle(_) => LeaseCommandTouches(names, g, a, id);
      case DoUpdate(u) => UpdateTouches(names, g, u, id);
      case DoClaim(c) => ClaimTouches(names, g, c, id);
      case DoTerminal(t) => TerminalTouches(names, g, t, id);
      case _ =>
    }
  }

  // ---------- repetition ----------

  lemma TildeIsNotEverything(scopes: seq<string>)
    requires HasTilde(scopes)
    ensures ScopeSet(scopes) != ScopeSet(["**"])
  {
    var i :| 0 <= i < |scopes| && scopes[i] != "" && scopes[i][0] == '~';
    assert scopes[i] in ScopeSet(scopes);
  }

  /**
   An acquire delivered again finds its version outdated if it named one; otherwise it is recognised as a
   replay exactly when no canonical scope of it begins with a tilde, and else refused as reuse of its own key.
   */
  lemma ReplayIsRecognisedIff(names: Naming, g: Goal, c: Acquire)
    requires WellFormed(DoAcquire(c)) && DecideAcquire(names, g, c).Apply?
    ensures DecideAcquire(names, ApplyAcquire(names, g, c), c)
         == if c.expectedVersion.Some? then Conflict(VersionMismatch)
            else if HasTilde(Comparison(c.scopes)) then Rejected(KeyReuse)
            else NoChange(AcquireReplay)
  {
    hide Comparison, BlocksAcquire;
    var g' := ApplyAcquire(names, g, c);
    assert Holds(g', c.todoId);
    ComparisonAgain(c.scopes);
    if HasTilde(Comparison(c.scopes)) {
      TildeIsNotEverything(Comparison(c.scopes));
    }
  }

  lemma RepeatedAcquireChangesNothing(names: Naming, g: Goal, c: Acquire)
    requires c.ttl > 0
    ensures ApplyAcquire(names, ApplyAcquire(names, g, c), c) == ApplyAcquire(names, g, c)
  {
    hide Comparison, BlocksAcquire;
    if DecideAcquire(names, g, c).Apply? {
      assert Holds(ApplyAcquire(names, g, c), c.todoId);
    }
  }

  lemma RepeatedLifecycleChangesNothing(names: Naming, g: Goal, c: Lifecycle)
    ensures ApplyLifecycle(names, ApplyLifecycle(names, g, c), c) == ApplyLifecycle(names, g, c)
  {
  }

  /** Delivering a lease command twice in a row has the effect of delivering it once. */
  lemma RepeatedCommandChangesNothing(names: Naming, g: Goal, a: Action)
    requires WellFormed(a) && (a.DoAcquire? || a.DoLifecycle?)
    ensures Next(names, Next(names, g, a), a) == Next(names, g, a)
  {
    hide ApplyAcquire, ApplyLifecycle;
    if a.DoAcquire? {
      RepeatedAcquireChangesNothing(names, g, a.acquire);
    } else {
      RepeatedLifecycleChangesNothing(names, g, a.lifecycle);
    }
  }
}
