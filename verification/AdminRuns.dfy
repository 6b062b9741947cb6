/** What holds over every run of the admin service: fitting policy assignments, a scope that
    never loses its last admin, and wipes that need two admins. */
module AdminRuns {
  import opened AdminService
  import opened AdminStore
  import opened Results
  import opened Tenants

  // ---- runs ---------------------------------------------------------------------------

  datatype Op =
    | IssueToken(tenant: Tenant)
    | RevokeToken(token: Id)
    | SetTags(device: Id, tags: seq<string>)
    | Command(device: Id, kind: Kind)
    | CollectFrom(device: Id, path: string)
    | Erase(device: Id)
    | Revoke(device: Id)
    | RequestWipe(device: Id, reason: string)
    | ApproveWipe(device: Id)
    | CancelWipe(device: Id)
    | UpdateCase(event: Id, assignee: string, note: string)
    | AckEvent(event: Id, status: string)
    | CreatePolicy(version: string, requested: string)
    | AssignPolicy(device: Id, policy: Id)
    | AddRule(policy: Id, rule: Rule)
    | CreateAdmin(email: string, password: string, role: Role, requested: string)
    | SetAdminRole(target: Id, role: Role)
    | Deactivate(target: Id)

  /** An admin's request, or a device that enrols with a token of the given tenant; clash tells
      whether its network address is that of another device of that tenant. */
  datatype Move = ByAdmin(actor: Id, op: Op, luck: Luck) | Enrol(device: Id, tenant: Tenant, clash: bool)

  function Performed(s: Store, env: Env, a: Id, op: Op, luck: Luck): Outcome {
    match op
    case IssueToken(tenant) => IssuedToken(s, a, tenant, luck)
    case RevokeToken(token) => RevokedToken(s, a, token)
    case SetTags(d, tags) => Tagged(s, env, a, d, tags)
    case Command(d, kind) => Commanded(s, a, d, kind, luck)
    case CollectFrom(d, path) => FileCollected(s, env, a, d, path, luck)
    case Erase(d) => Erased(s, a, d, luck)
    case Revoke(d) => Revoked(s, a, d, luck)
    case RequestWipe(d, reason) => WipeRequested(s, env, a, d, reason, luck)
    case ApproveWipe(d) => WipeApproved(s, a, d, luck)
    case CancelWipe(d) => WipeCancelled(s, a, d)
    case UpdateCase(e, assignee, note) => CaseUpdated(s, env, a, e, assignee, note)
    case AckEvent(e, status) => EventAcked(s, a, e, status)
    case CreatePolicy(version, requested) => PolicyCreated(s, env, a, version, requested, luck)
    case AssignPolicy(d, p) => PolicyAssigned(s, env, a, d, p, luck)
    case AddRule(p, rule) => RuleAdded(s, env, a, p, rule, luck)
    case CreateAdmin(email, password, role, requested) =>
      AdminCreated(s, env, a, email, password, role, requested, luck)
    case SetAdminRole(target, role) => RoleSet(s, a, target, role)
    case Deactivate(target) => Deactivated(s, a, target)
  }

  /** Enrolment: a known device stays in its tenant, a device from before tenancy joins the
      default one, and an unknown one joins the token's. A known device of another tenant, or
      with another device's address, is refused. */
  function Enrolled(s: Store, d: Id, tenant: Tenant, clash: bool): (after: Store)
    ensures after == s.(devices := after.devices)
  {
    if d !in s.devices then s.(devices := s.devices[d := Device(tenant, "ACTIVE", [], None, "")])
    else if !Equivalent(s.devices[d].tenant, tenant) || clash then s
    else
      var device := s.devices[d];
      var status := if NotYetActive(device.status) then "ACTIVE" else device.status;
      s.(devices := s.devices[d := device.(tenant := Canonical(device.tenant), status := status)])
  }

  predicate NotYetActive(status: string) {
    status == "PENDING_ENROLLMENT" || status == "OFFLINE" || status == "UNINSTALLED" || status == ""
  }

  function Step(s: Store, env: Env, m: Move): Store {
    match m
    case ByAdmin(a, op, luck) => Performed(s, env, a, op, luck).0
    case Enrol(d, tenant, clash) => Enrolled(s, d, tenant, clash)
  }

  function Run(s: Store, env: Env, moves: seq<Move>): Store
    decreases |moves|
  {
    if moves == [] then s else Step(Run(s, env, moves[..|moves| - 1]), env, moves[|moves| - 1])
  }

  /** Random identifiers do not repeat. */
  predicate Unused(s: Store, m: Move) {
    m.ByAdmin? ==>
      && (m.op.IssueToken? ==> m.luck.newId !in s.tokens)
      && (m.op.CreatePolicy? ==> m.luck.newId !in s.policies)
      && (m.op.CreateAdmin? ==> m.luck.newId !in s.admins)
  }

  predicate UnusedIds(s: Store, env: Env, moves: seq<Move>)
    decreases |moves|
  {
    moves != [] ==>
      var front := moves[..|moves| - 1];
      UnusedIds(s, env, front) && Unused(Run(s, env, front), moves[|moves| - 1])
  }

  // ---- what a move touches ------------------------------------------------------------

  predicate ChangesAssignments(op: Op) {
    op.SetTags? || op.Command? || op.AssignPolicy? || op.AddRule? || op.CreatePolicy?
  }

  predicate ChangesAdmins(op: Op) {
    op.CreateAdmin? || op.SetAdminRole? || op.Deactivate?
  }

  predicate ChangesCommands(op: Op) {
    op.Command? || op.CollectFrom? || op.Erase? || op.ApproveWipe? || op.RequestWipe? || op.CancelWipe?
  }

  lemma AssignmentsUntouched(s: Store, env: Env, a: Id, op: Op, luck: Luck)
    requires !ChangesAssignments(op)
    ensures Performed(s, env, a, op, luck).0.devices == s.devices
    ensures Performed(s, env, a, op, luck).0.policies == s.policies
  {
  }

  lemma AdminsUntouched(s: Store, env: Env, a: Id, op: Op, luck: Luck)
    requires !ChangesAdmins(op)
    ensures Performed(s, env, a, op, luck).0.admins == s.admins
  {
  }

  lemma CommandsUntouched(s: Store, env: Env, a: Id, op: Op, luck: Luck)
    requires !ChangesCommands(op)
    ensures Performed(s, env, a, op, luck).0.commands == s.commands
    ensures Performed(s, env, a, op, luck).0.wipes == s.wipes
  {
  }

  // ---- the command queue --------------------------------------------------------------

  /** An accepted command is the last of that device's commands; a refused one changes nothing,
      and no other device ever has a new one. */
  lemma CommandQueuedExactly(s: Store, a: Id, d: Id, kind: Kind, luck: Luck, other: Id)
    ensures var after := Commanded(s, a, d, kind, luck);
            && CommandsOf(after.0, other)
               == CommandsOf(s, other) + (if after.1.None? && other == d then [Cmd(kind, a)] else [])
            && (after.1.Some? ==> after.0 == s)
  {
    hide Shown, DeviceGate, Allowed, MinRole, Passes, InScope;
    var after := Commanded(s, a, d, kind, luck);
    assert after.1.Some? || after.0 == Shown(Queued(s, d, kind, a), d, kind);
    assert CommandsOf(s, other) + [] == CommandsOf(s, other);
    hide Commanded;
  }

  // ---- assignments --------------------------------------------------------------------

  /** Every assigned policy exists, is shared or of its device's tenant, and the device carries
      the policy's current version. */
  predicate Assigned(s: Store) {
    forall d | d in s.devices && s.devices[d].policy.Some? ::
      var device := s.devices[d];
      && device.policy.value in s.policies
      && FitsDevice(s.policies[device.policy.value].tenant, device.tenant)
      && device.version == s.policies[device.policy.value].version
  }

  lemma PolicyCreatedKeepsAssigned(s: Store, env: Env, a: Id, version: string, requested: string, luck: Luck)
    requires Assigned(s) && luck.newId !in s.policies
    ensures Assigned(PolicyCreated(s, env, a, version, requested, luck).0)
  {
  }

  lemma PolicyAssignedKeepsAssigned(s: Store, env: Env, a: Id, d: Id, p: Id, luck: Luck)
    requires Assigned(s)
    ensures Assigned(PolicyAssigned(s, env, a, d, p, luck).0)
  {
  }

  lemma RuleAddedKeepsAssigned(s: Store, env: Env, a: Id, p: Id, rule: Rule, luck: Luck)
    requires Assigned(s)
    ensures Assigned(RuleAdded(s, env, a, p, rule, luck).0)
  {
  }

  /** A change of one device that keeps its policy, its version and, up to equivalence, its tenant. */
  lemma DeviceChangeKeepsAssigned(s: Store, d: Id, device: Device)
    requires Assigned(s)
    requires device.policy.Some? ==>
               d in s.devices && device.policy == s.devices[d].policy && device.version == s.devices[d].version
               && Equivalent(device.tenant, s.devices[d].tenant)
    ensures Assigned(s.(devices := s.devices[d := device]))
  {
  }

  lemma TaggedKeepsAssigned(s: Store, env: Env, a: Id, d: Id, tags: seq<string>)
    requires Assigned(s)
    ensures Assigned(Tagged(s, env, a, d, tags).0)
  {
  }

  lemma CommandedKeepsAssigned(s: Store, a: Id, d: Id, kind: Kind, luck: Luck)
    requires Assigned(s)
    ensures Assigned(Commanded(s, a, d, kind, luck).0)
  {
    hide DeviceGate, Allowed, Reflected;
    var queued := Queued(s, d, kind, a);
    if d in s.devices && Reflected(kind).Some? {
      DeviceChangeKeepsAssigned(queued, d, s.devices[d].(status := Reflected(kind).value));
    }
    assert Assigned(queued);
    hide Assigned;
  }

  lemma EnrolledKeepsAssigned(s: Store, d: Id, tenant: Tenant, clash: bool)
    requires Assigned(s)
    ensures Assigned(Enrolled(s, d, tenant, clash))
  {
    if d !in s.devices || (Equivalent(s.devices[d].tenant, tenant) && !clash) {
      DeviceChangeKeepsAssigned(s, d, Enrolled(s, d, tenant, clash).devices[d]);
    }
  }

  lemma StepKeepsAssigned(s: Store, env: Env, m: Move)
    requires Assigned(s) && Unused(s, m)
    ensures Assigned(Step(s, env, m))
  {
    hide IssuedToken, RevokedToken, Tagged, Commanded, FileCollected, Erased, Revoked, WipeRequested, WipeApproved;
    hide WipeCancelled, CaseUpdated, EventAcked, PolicyCreated, PolicyAssigned, RuleAdded, AdminCreated, RoleSet;
    hide Deactivated;
    hide Enrolled;
    match m
    case Enrol(d, tenant, clash) => EnrolledKeepsAssigned(s, d, tenant, clash);
    case ByAdmin(a, op, luck) =>
      match op
      case SetTags(d, tags) => TaggedKeepsAssigned(s, env, a, d, tags);
      case Command(d, kind) => CommandedKeepsAssigned(s, a, d, kind, luck);
      case AssignPolicy(d, p) => PolicyAssignedKeepsAssigned(s, env, a, d, p, luck);
      case AddRule(p, rule) => RuleAddedKeepsAssigned(s, env, a, p, rule, luck);
      case CreatePolicy(version, requested) => PolicyCreatedKeepsAssigned(s, env, a, version, requested, luck);
      case _ => AssignmentsUntouched(s, env, a, op, luck); hide Performed;
  }

  /** In every reachable store, whoever acts, platform admins included, each assignment is
      shared or within one tenant, and no device shows an outdated policy version. */
  lemma {:induction false} AssignmentsAlwaysFit(s: Store, env: Env, moves: seq<Move>)
    requires Assigned(s) && UnusedIds(s, env, moves)
    ensures Assigned(Run(s, env, moves))
    decreases |moves|
  {
    if moves != [] {
      AssignmentsAlwaysFit(s, env, moves[..|moves| - 1]);
      StepKeepsAssigned(Run(s, env, moves[..|moves| - 1]), env, moves[|moves| - 1]);
    }
  }

  // ---- the last admin -----------------------------------------------------------------

  predicate Governed(s: Store, scope: Tenant) {
    exists a | a in s.admins :: ActiveAdmin(s, a, scope)
  }

  /** A platform admin takes the role or the account of the only active admin of a tenant. */
  predicate Empties(s: Store, m: Move, scope: Tenant) {
    && m.ByAdmin? && scope != PLATFORM && ActiveAdmin(s, m.actor, PLATFORM)
    && (m.op.Deactivate? || (m.op.SetAdminRole? && (m.op.role.Viewer? || m.op.role.Operator?)))
    && ActiveAdmin(s, m.op.target, scope) && !OtherAdmin(s, m.op.target, scope)
  }

  lemma AdminRowGoverns(s: Store, a: Id, row: Admin, scope: Tenant)
    requires Governed(s, scope)
    ensures var after := s.(admins := s.admins[a := row]);
            Governed(after, scope) <==>
            (row.active && row.role == Administrator && row.tenant == scope) || OtherAdmin(s, a, scope)
  {
    var after := s.(admins := s.admins[a := row]);
    if OtherAdmin(s, a, scope) {
      var b :| b in s.admins && b != a && ActiveAdmin(s, b, scope);
      assert ActiveAdmin(after, b, scope) && b in after.admins;
    }
    if row.active && row.role == Administrator && row.tenant == scope {
      assert ActiveAdmin(after, a, scope) && a in after.admins;
    }
    if Governed(after, scope) {
      var b :| b in after.admins && ActiveAdmin(after, b, scope);
      assert b != a ==> ActiveAdmin(s, b, scope);
    }
  }

  /** Whoever is not the only active admin of the scope can be spared. */
  lemma OnlyOneMatters(s: Store, a: Id, scope: Tenant)
    requires Governed(s, scope) && !ActiveAdmin(s, a, scope)
    ensures OtherAdmin(s, a, scope)
  {
  }

  lemma AdminCreatedGoverns(s: Store, env: Env, a: Id, email: string, password: string, role: Role, requested: string,
      luck: Luck, scope: Tenant)
    requires Governed(s, scope) && luck.newId !in s.admins
    ensures Governed(AdminCreated(s, env, a, email, password, role, requested, luck).0, scope)
  {
    hide AdminFor;
    var after := AdminCreated(s, env, a, email, password, role, requested, luck);
    if after.1.None? {
      OnlyOneMatters(s, luck.newId, scope);
      AdminRowGoverns(s, luck.newId, after.0.admins[luck.newId], scope);
    }
  }

  lemma RoleSetGoverns(s: Store, a: Id, target: Id, role: Role, luck: Luck, scope: Tenant)
    requires Governed(s, scope)
    ensures !Governed(RoleSet(s, a, target, role).0, scope) <==>
              Empties(s, ByAdmin(a, SetAdminRole(target, role), luck), scope)
  {
    var after := RoleSet(s, a, target, role);
    if after.1.None? && target in s.admins {
      AdminRowGoverns(s, target, s.admins[target].(role := role), scope);
      if !ActiveAdmin(s, target, scope) {
        OnlyOneMatters(s, target, scope);
      }
      if a != target && ActiveAdmin(s, a, scope) {
        assert OtherAdmin(s, target, scope);
      }
    }
    hide Governed, OtherAdmin;
  }

  lemma DeactivatedGoverns(s: Store, a: Id, target: Id, luck: Luck, scope: Tenant)
    requires Governed(s, scope)
    ensures !Governed(Deactivated(s, a, target).0, scope) <==> Empties(s, ByAdmin(a, Deactivate(target), luck), scope)
  {
    var after := Deactivated(s, a, target);
    if after.1.None? && target in s.admins {
      AdminRowGoverns(s, target, s.admins[target].(active := false), scope);
      if !ActiveAdmin(s, target, scope) {
        OnlyOneMatters(s, target, scope);
      }
      if a != target && ActiveAdmin(s, a, scope) {
        assert OtherAdmin(s, target, scope);
      }
    }
    hide Governed, OtherAdmin;
  }

  lemma SameAdminsGovern(s: Store, after: Store, scope: Tenant)
    requires after.admins == s.admins
    ensures Governed(after, scope) == Governed(s, scope)
  {
  }

  lemma OutcomeGoverns(s: Store, env: Env, a: Id, op: Op, luck: Luck, outcome: Outcome, scope: Tenant)
    requires outcome == Performed(s, env, a, op, luck)
    requires Governed(s, scope) && Unused(s, ByAdmin(a, op, luck))
    ensures !Governed(outcome.0, scope) <==> Empties(s, ByAdmin(a, op, luck), scope)
  {
    hide IssuedToken, RevokedToken, Tagged, Commanded, FileCollected, Erased, Revoked, WipeRequested, WipeApproved;
    hide WipeCancelled, CaseUpdated, EventAcked, PolicyCreated, PolicyAssigned, RuleAdded, AdminCreated, RoleSet;
    hide Deactivated;
    hide Governed, OtherAdmin, ActiveAdmin;
    match op
    case CreateAdmin(email, password, role, requested) =>
      AdminCreatedGoverns(s, env, a, email, password, role, requested, luck, scope);
    case SetAdminRole(target, role) => RoleSetGoverns(s, a, target, role, luck, scope);
    case Deactivate(target) => DeactivatedGoverns(s, a, target, luck, scope);
    case _ => AdminsUntouched(s, env, a, op, luck); SameAdminsGovern(s, outcome.0, scope);
  }

  /** A scope loses its last active admin in exactly one way, and the platform never does. */
  lemma LastAdminLostExactly(s: Store, env: Env, a: Id, op: Op, luck: Luck, scope: Tenant)
    requires Governed(s, scope) && Unused(s, ByAdmin(a, op, luck))
    ensures !Governed(Performed(s, env, a, op, luck).0, scope) <==> Empties(s, ByAdmin(a, op, luck), scope)
  {
    OutcomeGoverns(s, env, a, op, luck, Performed(s, env, a, op, luck), scope);
    hide Performed, Governed, Empties, Unused;
  }

  /** Along the run, no move is by an active platform admin. */
  predicate WithoutPlatform(s: Store, env: Env, moves: seq<Move>)
    decreases |moves|
  {
    moves != [] ==>
      var front, m := moves[..|moves| - 1], moves[|moves| - 1];
      WithoutPlatform(s, env, front) && (m.ByAdmin? ==> !ActiveAdmin(Run(s, env, front), m.actor, PLATFORM))
  }

  lemma PerformedGoverns(s: Store, env: Env, a: Id, op: Op, luck: Luck, scope: Tenant)
    requires Governed(s, scope) && Unused(s, ByAdmin(a, op, luck))
    requires scope == PLATFORM || !ActiveAdmin(s, a, PLATFORM)
    ensures Governed(Performed(s, env, a, op, luck).0, scope)
  {
    hide Performed, Governed, Unused;
    LastAdminLostExactly(s, env, a, op, luck, scope);
  }

  lemma EnrolledGoverns(s: Store, d: Id, tenant: Tenant, clash: bool, scope: Tenant)
    requires Governed(s, scope)
    ensures Governed(Enrolled(s, d, tenant, clash), scope)
  {
  }

  lemma StepGoverns(s: Store, env: Env, m: Move, scope: Tenant)
    requires Governed(s, scope) && Unused(s, m)
    requires scope == PLATFORM || (m.ByAdmin? ==> !ActiveAdmin(s, m.actor, PLATFORM))
    ensures Governed(Step(s, env, m), scope)
  {
    hide Performed, Governed, Unused, Enrolled, ActiveAdmin;
    match m
    case ByAdmin(a, op, luck) => PerformedGoverns(s, env, a, op, luck, scope);
    case Enrol(d, tenant, clash) => EnrolledGoverns(s, d, tenant, clash, scope);
  }

  /** Over every run the platform keeps an active admin, and a tenant keeps one unless a
      platform admin steps in. */
  lemma {:induction false} StaysGoverned(s: Store, env: Env, moves: seq<Move>, scope: Tenant)
    requires Governed(s, scope) && UnusedIds(s, env, moves)
    requires scope == PLATFORM || WithoutPlatform(s, env, moves)
    ensures Governed(Run(s, env, moves), scope)
    decreases |moves|
  {
    if moves != [] {
      hide Governed, Step;
      var front, m := moves[..|moves| - 1], moves[|moves| - 1];
      StaysGoverned(s, env, front, scope);
      StepGoverns(Run(s, env, front), env, m, scope);
    }
  }

  // ---- two admins for a wipe ----------------------------------------------------------

  function Wipes(commands: seq<Cmd>): nat {
    if commands == [] then 0
    else Wipes(commands[..|commands| - 1]) + if commands[|commands| - 1].kind.Wipe? then 1 else 0
  }

  /** Wipe commands ever queued for the device, plus one if a request is pending. */
  function WipeWeight(s: Store, d: Id): nat {
    Wipes(CommandsOf(s, d)) + if d in s.wipes then 1 else 0
  }

  /** The move is an accepted request to wipe the device. */
  predicate Requests(s: Store, env: Env, m: Move, d: Id) {
    m.ByAdmin? && m.op.RequestWipe? && m.op.device == d && Performed(s, env, m.actor, m.op, m.luck).1.None?
  }

  function RequestCount(s: Store, env: Env, moves: seq<Move>, d: Id): nat
    decreases |moves|
  {
    if moves == [] then 0
    else
      var front := moves[..|moves| - 1];
      RequestCount(s, env, front, d) + if Requests(Run(s, env, front), env, moves[|moves| - 1], d) then 1 else 0
  }

  /** Dual control: wipes are not commanded directly. */
  predicate DualControl(m: Move) {
    m.ByAdmin? && m.op.Command? ==> !m.op.kind.Wipe?
  }

  /** Neither a wipe command nor a request for the device was added. */
  predicate NoHeavier(after: Store, s: Store, d: Id) {
    Wipes(CommandsOf(after, d)) <= Wipes(CommandsOf(s, d)) && WipeWeight(after, d) <= WipeWeight(s, d)
  }

  lemma CommandedNoHeavier(s: Store, a: Id, device: Id, kind: Kind, luck: Luck, d: Id)
    requires !kind.Wipe?
    ensures NoHeavier(Commanded(s, a, device, kind, luck).0, s, d)
  {
  }

  lemma FileCollectedNoHeavier(s: Store, env: Env, a: Id, device: Id, path: string, luck: Luck, d: Id)
    ensures NoHeavier(FileCollected(s, env, a, device, path, luck).0, s, d)
  {
  }

  lemma ErasedNoHeavier(s: Store, a: Id, device: Id, luck: Luck, d: Id)
    ensures NoHeavier(Erased(s, a, device, luck).0, s, d)
  {
  }

  lemma WipeCancelledNoHeavier(s: Store, a: Id, device: Id, d: Id)
    ensures NoHeavier(WipeCancelled(s, a, device).0, s, d)
  {
  }

  /** The approval of somebody else's request swaps the request for the command, or loses it. */
  lemma WipeApprovedExactly(s: Store, a: Id, device: Id, luck: Luck, d: Id)
    ensures var after := WipeApproved(s, a, device, luck).0;
            && WipeWeight(after, d) <= WipeWeight(s, d)
            && (Wipes(CommandsOf(after, d)) > Wipes(CommandsOf(s, d)) ==>
                  && device == d && d in s.wipes && s.wipes[d] != a && Allowed(s, a, Administrator)
                  && after.wipes == s.wipes - {d} && CommandsOf(after, d) == CommandsOf(s, d) + [Cmd(Wipe, a)])
  {
  }

  lemma WipeRequestedWeighs(s: Store, env: Env, a: Id, device: Id, reason: string, luck: Luck, d: Id)
    ensures var after := WipeRequested(s, env, a, device, reason, luck);
            WipeWeight(after.0, d) <= WipeWeight(s, d) + if device == d && after.1.None? then 1 else 0
  {
  }

  /** Only approvals and requests add weight. */
  lemma OthersNoHeavier(s: Store, env: Env, a: Id, op: Op, luck: Luck, d: Id)
    requires !op.ApproveWipe? && !op.RequestWipe? && DualControl(ByAdmin(a, op, luck))
    ensures NoHeavier(Performed(s, env, a, op, luck).0, s, d)
  {
    hide IssuedToken, RevokedToken, Tagged, Commanded, FileCollected, Erased, Revoked, WipeRequested, WipeApproved;
    hide WipeCancelled, CaseUpdated, EventAcked, PolicyCreated, PolicyAssigned, RuleAdded, AdminCreated, RoleSet;
    hide Deactivated;
    match op
    case Command(device, kind) => CommandedNoHeavier(s, a, device, kind, luck, d); hide NoHeavier;
    case CollectFrom(device, path) => FileCollectedNoHeavier(s, env, a, device, path, luck, d); hide NoHeavier;
    case Erase(device) => ErasedNoHeavier(s, a, device, luck, d); hide NoHeavier;
    case CancelWipe(device) => WipeCancelledNoHeavier(s, a, device, d); hide NoHeavier;
    case _ => CommandsUntouched(s, env, a, op, luck); hide Performed;
  }

  /** A step adds a wipe command only by approving a request of somebody else, which it uses up. */
  lemma FourEyes(s: Store, env: Env, a: Id, op: Op, luck: Luck, d: Id)
    requires DualControl(ByAdmin(a, op, luck))
    requires Wipes(CommandsOf(Performed(s, env, a, op, luck).0, d)) > Wipes(CommandsOf(s, d))
    ensures op == ApproveWipe(d) && d in s.wipes && s.wipes[d] != a && Allowed(s, a, Administrator)
    ensures Performed(s, env, a, op, luck).0.wipes == s.wipes - {d}
    ensures CommandsOf(Performed(s, env, a, op, luck).0, d) == CommandsOf(s, d) + [Cmd(Wipe, a)]
  {
    hide IssuedToken, RevokedToken, Tagged, Commanded, FileCollected, Erased, Revoked, WipeRequested, WipeApproved;
    hide WipeCancelled, CaseUpdated, EventAcked, PolicyCreated, PolicyAssigned, RuleAdded, AdminCreated, RoleSet;
    hide Deactivated;
    hide Wipes, Allowed;
    if op.ApproveWipe? {
      WipeApprovedExactly(s, a, op.device, luck, d);
    } else if !op.RequestWipe? {
      OthersNoHeavier(s, env, a, op, luck, d);
    }
  }

  lemma OutcomeWeighs(s: Store, env: Env, a: Id, op: Op, luck: Luck, outcome: Outcome, d: Id)
    requires outcome == Performed(s, env, a, op, luck) && DualControl(ByAdmin(a, op, luck))
    ensures WipeWeight(outcome.0, d)
         <= WipeWeight(s, d) + if op.RequestWipe? && op.device == d && outcome.1.None? then 1 else 0
  {
    hide IssuedToken, RevokedToken, Tagged, Commanded, FileCollected, Erased, Revoked, WipeRequested, WipeApproved;
    hide WipeCancelled, CaseUpdated, EventAcked, PolicyCreated, PolicyAssigned, RuleAdded, AdminCreated, RoleSet;
    hide Deactivated;
    hide Wipes;
    if op.ApproveWipe? {
      assert outcome == WipeApproved(s, a, op.device, luck);
      WipeApprovedExactly(s, a, op.device, luck, d);
    } else if op.RequestWipe? {
      assert outcome == WipeRequested(s, env, a, op.device, op.reason, luck);
      WipeRequestedWeighs(s, env, a, op.device, op.reason, luck, d);
    } else {
      OthersNoHeavier(s, env, a, op, luck, d);
    }
    hide WipeWeight, Performed;
  }

  lemma SameWeight(s: Store, after: Store, d: Id)
    requires after.commands == s.commands && after.wipes == s.wipes
    ensures WipeWeight(after, d) == WipeWeight(s, d)
  {
  }

  /** Under dual control no run queues more wipes of a device than were requested. */
  lemma {:induction false} WipesNeedRequests(s: Store, env: Env, moves: seq<Move>, d: Id)
    requires forall m | m in moves :: DualControl(m)
    ensures WipeWeight(Run(s, env, moves), d) <= WipeWeight(s, d) + RequestCount(s, env, moves, d)
    decreases |moves|
  {
    if moves != [] {
      WipesNeedRequests(s, env, moves[..|moves| - 1], d);
      var before, m := Run(s, env, moves[..|moves| - 1]), moves[|moves| - 1];
      hide Performed, WipeWeight;
      if m.ByAdmin? {
        OutcomeWeighs(before, env, m.actor, m.op, m.luck, Performed(before, env, m.actor, m.op, m.luck), d);
      } else {
        SameWeight(before, Step(before, env, m), d);
      }
    }
  }
}
