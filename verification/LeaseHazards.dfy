/**
 Concrete runs of admitted steps: the three ways in which a sleeping lease wakes beside a colliding holder,
 the reuse of a version that a release leaves behind, and what an owner does to its lease without proof.
 */
module LeaseHazards {
  import opened Options
  import opened WriteScopes
  import opened CanonicalScopes
  import opened TaskLease
  import opened TodoLifecycle
  import opened LeaseSteps
  import opened LeaseAlignment
  import opened LeaseRuns

  const PLAIN_NAMES: Naming := Naming(c => [c], s => s)
  const AGENTS: set<Agent> := {"x", "y", "z"}

  function Work(excluded: set<Agent>): Todo {
    Todo(false, "open", "agent", None, None, None, excluded, None)
  }

  const GATE: Todo := Todo(false, "open", "user", Some("user_gate"), None, None, {}, None)

  /** A lease on the whole repository. */
  function Broad(owner: Agent, key: string): Lease {
    Lease(owner, key, ["**"], None, None, 600, 1, 1, 0, 600000, false)
  }

  function AcquireAll(id: TodoId, owner: Agent, key: string): Acquire {
    Acquire.Acquire(id, owner, key, 600, ["**"], None, None)
  }

  function Start(excluded: set<Agent>, leases: map<TodoId, Lease>): Goal {
    Goal(HardLease, AGENTS, map["1" := Work(excluded), "2" := Work({}), "no" := GATE, "yes" := GATE], leases, 0)
  }

  lemma BroadScopesAreMeant()
    ensures Comparison(["**"]) == ["**"] && Meant(["**"]) == ["**"]
  {
    hide Canonical, Comparison, Settled;
    EverythingIsCanonical();
    SingleScope("**");
  }

  lemma AcquireBesideSleepers(g: Goal, id: TodoId, owner: Agent, key: string)
    requires g.mode.HardLease? && g.now == 0 && id !in g.leases && (forall j :: !Holds(g, j))
    requires OwnerRejection(TodoOf(g, id), owner, g.registered).None? && g.todos[id].repository.None?
    ensures ApplyAcquire(PLAIN_NAMES, g, AcquireAll(id, owner, key)) == g.(leases := g.leases[id := Broad(owner, key)])
  {
    hide Comparison, WriteScopesOverlap, RepositoriesMayOverlap, SameCheckout, Holds;
    BroadScopesAreMeant();
  }

  lemma AcquireStep(g: Goal, id: TodoId, owner: Agent, key: string)
    requires g.mode.HardLease? && g.now == 0 && id !in g.leases && (forall j :: !Holds(g, j))
    requires OwnerRejection(TodoOf(g, id), owner, g.registered).None? && g.todos[id].repository.None?
    ensures Next(PLAIN_NAMES, g, DoAcquire(AcquireAll(id, owner, key))) == g.(leases := g.leases[id := Broad(owner, key)])
  {
    hide ApplyAcquire, Holds, OwnerRejection;
    AcquireBesideSleepers(g, id, owner, key);
  }

  lemma BroadLeasesCollide(g: Goal)
    requires Holds(g, "1") && Holds(g, "2")
    requires var a, b := g.leases["1"], g.leases["2"];
             a.scopes == b.scopes == ["**"] && a.workspace.None? && b.workspace.None? && a.repository.None?
    ensures !Exclusive(PLAIN_NAMES, g)
  {
    HoldersHaveLeases(g);
    hide Comparison, Holds;
    BroadScopesAreMeant();
    var a, b := g.leases["1"], g.leases["2"];
    assert ScopePairOverlaps(PLAIN_NAMES.fold, a.scopes[0], b.scopes[0]);
    assert Collide(PLAIN_NAMES, a, b);
  }

  /** A head without two holders is exclusive. */
  lemma OneHolderIsExclusive(g: Goal, id: TodoId)
    requires forall j :: Holds(g, j) ==> j == id
    ensures Exclusive(PLAIN_NAMES, g)
  {
    hide Holds, Collide;
  }

  lemma StartIsClean(g: Goal)
    requires g == Start({}, map[])
    ensures Exclusive(PLAIN_NAMES, g) && Stamped(g) && Aligned(g) && forall j :: !Holds(g, j)
  {
    hide Collide;
  }

  // ---------- a retained head with an excluded owner ----------

  const HAND_OVER: Lifecycle := Lifecycle.Lifecycle(Transfer("z", "k3", 600, false), "1", "x", "k1", Some(1))

  lemma RetainedHead(g: Goal)
    requires g == Start({"x"}, map["1" := Broad("x", "k1")])
    ensures (forall j :: !Holds(g, j)) && Stamped(g) && !Aligned(g)
  {
    assert LeaseActive(g, "1") && !AlignedWith(g.leases["1"], g.todos["1"]);
  }

  lemma HandOverApplies(g: Goal)
    requires g == Start({"x"}, map["1" := Broad("x", "k1"), "2" := Broad("y", "k2")])
    ensures var g' := ApplyLifecycle(PLAIN_NAMES, g, HAND_OVER);
            g'.leases == map["1" := Broad("z", "k3").(version := 2, epoch := 2), "2" := Broad("y", "k2")] && Holds(g', "1") && Holds(g', "2")
  {
  }

  /**
   A head that retains the running lease of an agent its Todo excludes is exclusive but not aligned:
   y acquires the same scope, and x hands its sleeping lease to z.  Both commands are admitted.
   */
  lemma DormantTransferBreaksExclusion() returns (states: seq<Goal>, actions: seq<Action>)
    ensures Run(PLAIN_NAMES, states, actions) && |actions| == 2
    ensures Exclusive(PLAIN_NAMES, states[0]) && Stamped(states[0]) && !Aligned(states[0])
    ensures !Exclusive(PLAIN_NAMES, states[2])
  {
    hide Holds, Exclusive, Aligned, ApplyAcquire, ApplyLifecycle;
    var g0 := Start({"x"}, map["1" := Broad("x", "k1")]);
    RetainedHead(g0);
    OneHolderIsExclusive(g0, "1");
    AcquireStep(g0, "2", "y", "k2");
    var g1 := g0.(leases := g0.leases["2" := Broad("y", "k2")]);
    HandOverApplies(g1);
    var g2 := ApplyLifecycle(PLAIN_NAMES, g1, HAND_OVER);
    BroadLeasesCollide(g2);
    states, actions := [g0, g1, g2], [DoAcquire(AcquireAll("2", "y", "k2")), DoLifecycle(HAND_OVER)];
  }

  // ---------- the registry ----------

  lemma OwnerBackInRegistry(g: Goal)
    requires g == Start({}, map["1" := Broad("x", "k1"), "2" := Broad("y", "k2")])
    ensures Holds(g, "1") && Holds(g, "2")
  {
  }

  lemma OwnerLeftRegistry(g: Goal)
    requires g == Start({}, map["1" := Broad("x", "k1")]).(registered := {"y", "z"})
    ensures forall j :: !Holds(g, j)
  {
  }

  lemma RunOfFour(g0: Goal, g1: Goal, g2: Goal, g3: Goal, g4: Goal, a0: Action, a1: Action, a2: Action, a3: Action)
    requires WellFormed(a0) && WellFormed(a1) && WellFormed(a2) && WellFormed(a3)
    requires g1 == Next(PLAIN_NAMES, g0, a0) && g2 == Next(PLAIN_NAMES, g1, a1)
    requires g3 == Next(PLAIN_NAMES, g2, a2) && g4 == Next(PLAIN_NAMES, g3, a3)
    ensures Run(PLAIN_NAMES, [g0, g1, g2, g3, g4], [a0, a1, a2, a3])
  {
    hide Next, WellFormed;
  }

  /** From an aligned head: x acquires, leaves the registry, y acquires the same scope, and x is registered again. */
  lemma ReRegistrationBreaksExclusion() returns (states: seq<Goal>, actions: seq<Action>)
    ensures Run(PLAIN_NAMES, states, actions) && |actions| == 4
    ensures forall i :: 0 <= i < 4 ==> actions[i].DoAcquire? || actions[i].DoRegister?
    ensures Exclusive(PLAIN_NAMES, states[0]) && Stamped(states[0]) && Aligned(states[0])
    ensures !Exclusive(PLAIN_NAMES, states[4])
  {
    hide Holds, Exclusive, Aligned, ApplyAcquire, Run;
    var g0 := Start({}, map[]);
    StartIsClean(g0);
    AcquireStep(g0, "1", "x", "k1");
    var g1 := g0.(leases := g0.leases["1" := Broad("x", "k1")]);
    var g2 := g1.(registered := {"y", "z"});
    OwnerLeftRegistry(g2);
    AcquireStep(g2, "2", "y", "k2");
    var g3 := g2.(leases := g2.leases["2" := Broad("y", "k2")]);
    var g4 := g3.(registered := AGENTS);
    OwnerBackInRegistry(g4);
    BroadLeasesCollide(g4);
    states := [g0, g1, g2, g3, g4];
    actions := [DoAcquire(AcquireAll("1", "x", "k1")), DoRegister({"y", "z"}), DoAcquire(AcquireAll("2", "y", "k2")), DoRegister(AGENTS)];
    RunOfFour(g0, g1, g2, g3, g4, actions[0], actions[1], actions[2], actions[3]);
  }

  // ---------- two decisions of the user ----------

  function Decide(gate: TodoId, followup: Followup): Terminal {
    Terminal.Terminal(gate, Some("z"), false, false, false, Proof.Proof(None, None), true, "auto", None, followup)
  }

  const AUTO: Lease := Lease("z", "auto", [], None, None, DEFAULT_TTL_SECONDS, 1, 1, 0, 0, true)

  /** The head after the rejection. */
  function Rejection(leases: map<TodoId, Lease>): Goal {
    Start({}, leases).(todos := map["1" := Work({}).(status := "blocked"), "2" := Work({}), "no" := GATE.(status := "done"), "yes" := GATE])
  }

  lemma RejectionBlocks(g: Goal)
    requires g == Start({}, map["1" := Broad("x", "k1")])
    ensures ApplyTerminal(PLAIN_NAMES, g, Decide("no", BlockTarget("1"))) == Rejection(map["1" := Broad("x", "k1"), "no" := AUTO])
  {
  }

  lemma BlockedLeaseSleeps(g: Goal)
    requires g == Rejection(map["1" := Broad("x", "k1"), "no" := AUTO])
    ensures forall j :: !Holds(g, j)
  {
  }

  lemma AcquireAfterRejection(g: Goal)
    requires g == Rejection(map["1" := Broad("x", "k1"), "no" := AUTO])
    ensures Next(PLAIN_NAMES, g, DoAcquire(AcquireAll("2", "y", "k2"))) == Rejection(map["1" := Broad("x", "k1"), "no" := AUTO, "2" := Broad("y", "k2")])
  {
    hide Holds, ApplyAcquire;
    BlockedLeaseSleeps(g);
    AcquireStep(g, "2", "y", "k2");
  }

  lemma ApprovalOpens(g: Goal)
    requires g == Rejection(map["1" := Broad("x", "k1"), "no" := AUTO, "2" := Broad("y", "k2")])
    ensures var g' := ApplyTerminal(PLAIN_NAMES, g, Decide("yes", OpenTarget("1")));
            && g'.leases == g.leases["yes" := AUTO]
            && Holds(g', "1") && Holds(g', "2")
  {
  }

  /**
   From an aligned head and with a fixed registry: x acquires, a user's rejection blocks the Todo but not the
   lease, y acquires the same scope, and a user's approval opens the Todo again under the lease of x.
   */
  lemma UserDecisionsBreakExclusion() returns (states: seq<Goal>, actions: seq<Action>)
    ensures Run(PLAIN_NAMES, states, actions) && |actions| == 4
    ensures forall i :: 0 <= i < 4 ==> actions[i].DoAcquire? || actions[i].DoTerminal?
    ensures Exclusive(PLAIN_NAMES, states[0]) && Stamped(states[0]) && Aligned(states[0])
    ensures !Exclusive(PLAIN_NAMES, states[4])
  {
    hide Holds, Exclusive, Aligned, ApplyAcquire, ApplyTerminal, Run;
    var g0 := Start({}, map[]);
    StartIsClean(g0);
    AcquireStep(g0, "1", "x", "k1");
    var g1 := g0.(leases := g0.leases["1" := Broad("x", "k1")]);
    var no, yes := Decide("no", BlockTarget("1")), Decide("yes", OpenTarget("1"));
    RejectionBlocks(g1);
    var g2 := Rejection(map["1" := Broad("x", "k1"), "no" := AUTO]);
    AcquireAfterRejection(g2);
    var g3 := Rejection(map["1" := Broad("x", "k1"), "no" := AUTO, "2" := Broad("y", "k2")]);
    ApprovalOpens(g3);
    var g4 := ApplyTerminal(PLAIN_NAMES, g3, yes);
    BroadLeasesCollide(g4);
    states := [g0, g1, g2, g3, g4];
    actions := [DoAcquire(AcquireAll("1", "x", "k1")), DoTerminal(no), DoAcquire(AcquireAll("2", "y", "k2")), DoTerminal(yes)];
    RunOfFour(g0, g1, g2, g3, g4, actions[0], actions[1], actions[2], actions[3]);
  }

  // ---------- one version, two commands ----------

  const GIVE_BACK: Lifecycle := Lifecycle.Lifecycle(Release, "1", "x", "k1", Some(1))

  function AcquireAgain(key: string): Acquire {
    AcquireAll("1", "x", key).(expectedVersion := Some(1))
  }

  lemma ReleaseApplies(g: Goal)
    requires g == Start({}, map["1" := Broad("x", "k1")])
    ensures ApplyLifecycle(PLAIN_NAMES, g, GIVE_BACK) == g.(leases := map["1" := Broad("x", "k1").(released := true)])
  {
  }

  lemma ReacquireApplies(g: Goal)
    requires g == Start({}, map["1" := Broad("x", "k1").(released := true)])
    ensures ApplyAcquire(PLAIN_NAMES, g, AcquireAgain("k2")) == g.(leases := map["1" := Broad("x", "k2").(version := 2, epoch := 2)])
  {
    hide Comparison, WriteScopesOverlap;
    BroadScopesAreMeant();
  }

  /** A release and then an acquire are both admitted against version 1, and both change the record. */
  lemma OneVersionAdmitsTwo() returns (states: seq<Goal>, actions: seq<Action>)
    ensures Run(PLAIN_NAMES, states, actions) && |actions| == 2
    ensures forall i :: 0 <= i < 2 ==> NamesVersion(states[i], actions[i], "1", 1) && ChangesLease(PLAIN_NAMES, states[i], actions[i], "1")
  {
    hide ApplyAcquire, ApplyLifecycle;
    var g0 := Start({}, map["1" := Broad("x", "k1")]);
    var g1 := Start({}, map["1" := Broad("x", "k1").(released := true)]);
    ReleaseApplies(g0);
    ReacquireApplies(g1);
    states, actions := [g0, g1, ApplyAcquire(PLAIN_NAMES, g1, AcquireAgain("k2"))], [DoLifecycle(GIVE_BACK), DoAcquire(AcquireAgain("k2"))];
  }

  const EXPIRED: Lease := Broad("x", "k1").(version := 5, expiresAt := 0)

  function CompleteNaming(v: nat): Terminal {
    Decide("no", NoFollowup).(proof := Proof.Proof(None, Some(v)))
  }

  /** Completing a user gate whose lease has expired retires that lease, whatever version the command names. */
  lemma GateCompletionChecksNoVersion(g: Goal, v: nat)
    requires g == Start({}, map["no" := EXPIRED])
    ensures ChecksNoProof(g, CompleteNaming(v))
    ensures Next(PLAIN_NAMES, g, DoTerminal(CompleteNaming(v))).leases == map["no" := EXPIRED.(released := true)]
  {
  }

  // ---------- without key or version ----------

  const PAUSE: Update := Update.Update("1", Some("x"), false, Proof.Proof(None, None), Pause)
  const RECLAIM: Claim := Claim.Claim("1", "x", Some("x"), false, ["**"], Managed("fresh", None))

  /** An owner retires its holding lease by pausing the Todo, without key or version. */
  lemma PauseRetiresWithoutProof(g: Goal)
    requires g == Start({}, map["1" := Broad("x", "k1")])
    ensures Holds(g, "1") && !Supplied(PAUSE.proof)
    ensures Next(PLAIN_NAMES, g, DoUpdate(PAUSE)).leases["1"] == g.leases["1"].(released := true)
  {
  }

  lemma RenewalIsAdmitted(g: Goal)
    requires g == Start({}, map["1" := Broad("x", "k1")]).(now := 500000)
    ensures DecideLifecycle(PLAIN_NAMES, g, RenewalOf(g, RECLAIM)) == Apply(g.leases["1"].(version := 2, expiresAt := 1100000))
  {
  }

  lemma ReclaimIsAdmitted(g: Goal)
    requires g == Start({}, map["1" := Broad("x", "k1")]).(now := 500000)
    ensures Holds(g, "1") && ClaimAdmitted(g, RECLAIM) && DueForRenewal(g, g.leases["1"])
    ensures ClaimDecision(PLAIN_NAMES, g, RECLAIM) == DecideLifecycle(PLAIN_NAMES, g, RenewalOf(g, RECLAIM))
  {
    hide DecideLifecycle;
  }

  /** An owner renews its holding lease in the last third of its time by claiming the Todo, without key or version. */
  lemma ClaimRenewsWithoutProof(g: Goal)
    requires g == Start({}, map["1" := Broad("x", "k1")]).(now := 500000)
    ensures Holds(g, "1")
    ensures Next(PLAIN_NAMES, g, DoClaim(RECLAIM)).leases["1"] == g.leases["1"].(version := 2, expiresAt := 1100000)
  {
    hide DecideLifecycle, ClaimDecision, ClaimAdmitted, Holds;
    RenewalIsAdmitted(g);
    ReclaimIsAdmitted(g);
  }
}
