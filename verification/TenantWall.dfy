/** The wall between tenants: what a run of the admin service cannot change. */
module TenantWall {
  import opened AdminRuns
  import opened AdminService
  import opened AdminStore
  import opened Results
  import opened Tenants

  /** Everything that is a tenant's: its rows, and what hangs off its devices. */
  datatype View = View(
    devices: map<Id, Device>, policies: map<Id, Policy>, tokens: map<Id, Token>, admins: map<Id, Admin>,
    commands: map<Id, seq<Cmd>>, certs: map<Id, Cert>, wipes: map<Id, Id>, events: map<Id, Event>,
    triage: map<Id, Triage>, published: map<Id, nat>)

  function DevicesOf(devices: map<Id, Device>, tenant: Tenant, blurred: bool): map<Id, Device> {
    map d | d in devices && devices[d].tenant == tenant ::
      if blurred then devices[d].(version := "") else devices[d]
  }

  function PoliciesOf(policies: map<Id, Policy>, tenant: Tenant): map<Id, Policy> {
    map p | p in policies && policies[p].tenant == tenant :: policies[p]
  }

  function TokensOf(tokens: map<Id, Token>, tenant: Tenant): map<Id, Token> {
    map t | t in tokens && tokens[t].tenant == tenant :: tokens[t]
  }

  function AdminsOf(admins: map<Id, Admin>, tenant: Tenant): map<Id, Admin> {
    map a | a in admins && admins[a].tenant == tenant :: admins[a]
  }

  function DeviceIds(devices: map<Id, Device>, tenant: Tenant): set<Id> {
    set d | d in devices && devices[d].tenant == tenant
  }

  /** Whose view it is, the events whose triage belongs to it, and whether it is blurred: then it
      leaves out policy versions and stream wake-ups. */
  datatype Wall = Wall(tenant: Tenant, events: set<Id>, blurred: bool)

  function ViewOf(s: Store, w: Wall): View {
    var own := DeviceIds(s.devices, w.tenant);
    View(
      DevicesOf(s.devices, w.tenant, w.blurred), PoliciesOf(s.policies, w.tenant), TokensOf(s.tokens, w.tenant),
      AdminsOf(s.admins, w.tenant), CommandsFor(s.commands, own), CertsFor(s.certs, own), WipesFor(s.wipes, own),
      EventsFor(s.events, own), TriageFor(s.triage, w.events),
      if w.blurred then map[] else PublishedFor(s.published, own))
  }

  function CommandsFor(commands: map<Id, seq<Cmd>>, own: set<Id>): map<Id, seq<Cmd>> {
    map d | d in own :: if d in commands then commands[d] else []
  }

  function CertsFor(certs: map<Id, Cert>, own: set<Id>): map<Id, Cert> {
    map c | c in certs && certs[c].device in own :: certs[c]
  }

  function WipesFor(wipes: map<Id, Id>, own: set<Id>): map<Id, Id> {
    map d | d in wipes && d in own :: wipes[d]
  }

  function EventsFor(events: map<Id, Event>, own: set<Id>): map<Id, Event> {
    map e | e in events && events[e].device in own :: events[e]
  }

  function TriageFor(triage: map<Id, Triage>, events: set<Id>): map<Id, Triage> {
    map e | e in triage && e in events :: triage[e]
  }

  function PublishedFor(published: multiset<Id>, own: set<Id>): map<Id, nat> {
    map d | d in own :: published[d]
  }

  /** The wall's events are the tenant's, as long as they exist. */
  predicate OwnEvents(s: Store, w: Wall) {
    forall e | e in w.events && e in s.events :: s.events[e].tenant == w.tenant
  }

  /** The same view, and its events still are the tenant's. */
  predicate Unseen(after: Store, s: Store, w: Wall) {
    ViewOf(after, w) == ViewOf(s, w) && OwnEvents(after, w)
  }

  /** The admin is unknown, inactive, or bound to another tenant. */
  predicate Foreign(s: Store, a: Id, w: Wall) {
    Active(s, a) ==> s.admins[a].tenant != PLATFORM && s.admins[a].tenant != w.tenant
  }

  /** The new rule's version or wake-up arrives at a device on the other side of the wall. */
  predicate Reaches(s: Store, env: Env, p: Id, version: string, w: Wall) {
    exists d | d in s.devices ::
      && s.devices[d].tenant == w.tenant && s.devices[d].policy == Some(p)
      && (env.publishes || s.devices[d].version != version)
  }

  predicate AddsReachingRule(s: Store, env: Env, m: Move, w: Wall) {
    && m.ByAdmin? && m.op.AddRule? && RuleAdded(s, env, m.actor, m.op.policy, m.op.rule, m.luck).1.None?
    && Reaches(s, env, m.op.policy, m.luck.newVersion, w)
  }

  // One lemma for each table that operations change.

  lemma TokenRowUnseen(s: Store, t: Id, row: Token, w: Wall)
    requires OwnEvents(s, w) && row.tenant != w.tenant && (t in s.tokens ==> s.tokens[t].tenant != w.tenant)
    ensures Unseen(s.(tokens := s.tokens[t := row]), s, w)
  {
  }

  lemma IssuedTokenUnseen(s: Store, a: Id, tenant: Tenant, luck: Luck, w: Wall)
    requires Foreign(s, a, w) && OwnEvents(s, w) && luck.newId !in s.tokens
    ensures Unseen(IssuedToken(s, a, tenant, luck).0, s, w)
  {
    hide ViewOf;
    if IssuedToken(s, a, tenant, luck).1.None? {
      TokenRowUnseen(s, luck.newId, Token(s.admins[a].tenant, a, false), w);
    }
    hide OwnEvents;
  }

  lemma RevokedTokenUnseen(s: Store, a: Id, token: Id, w: Wall)
    requires Foreign(s, a, w) && OwnEvents(s, w)
    ensures Unseen(RevokedToken(s, a, token).0, s, w)
  {
    hide ViewOf;
    if RevokedToken(s, a, token).1.None? {
      TokenRowUnseen(s, token, s.tokens[token].(used := true), w);
    }
    hide OwnEvents;
  }

  lemma DeviceRowUnseen(s: Store, d: Id, device: Device, w: Wall)
    requires OwnEvents(s, w) && device.tenant != w.tenant && (d in s.devices ==> s.devices[d].tenant != w.tenant)
    ensures Unseen(s.(devices := s.devices[d := device]), s, w)
  {
    var devices := s.devices[d := device];
    assert DevicesOf(devices, w.tenant, w.blurred) == DevicesOf(s.devices, w.tenant, w.blurred);
    assert DeviceIds(devices, w.tenant) == DeviceIds(s.devices, w.tenant);
  }

  /** A gate opens to a foreign admin only for devices of its own tenant. */
  lemma GatedDevice(s: Store, a: Id, d: Id, w: Wall)
    requires Foreign(s, a, w) && DeviceGate(s, a, d).None?
    ensures d in s.devices && s.devices[d].tenant != w.tenant && d !in DeviceIds(s.devices, w.tenant)
    ensures s.devices[d].tenant == s.admins[a].tenant
  {
  }

  lemma TaggedUnseen(s: Store, env: Env, a: Id, d: Id, tags: seq<string>, w: Wall)
    requires Foreign(s, a, w) && OwnEvents(s, w)
    ensures Unseen(Tagged(s, env, a, d, tags).0, s, w)
  {
    if Tagged(s, env, a, d, tags).1.None? {
      GatedDevice(s, a, d, w);
      DeviceRowUnseen(s, d, s.devices[d].(tags := CleanTags(env.text, tags, [])), w);
    }
    hide Unseen, CleanTags;
  }

  lemma QueuedUnseen(s: Store, d: Id, kind: Kind, a: Id, w: Wall)
    requires OwnEvents(s, w) && d !in DeviceIds(s.devices, w.tenant)
    ensures Unseen(Queued(s, d, kind, a), s, w)
  {
    var own := DeviceIds(s.devices, w.tenant);
    assert CommandsFor(Queued(s, d, kind, a).commands, own) == CommandsFor(s.commands, own);
  }

  lemma CommandedUnseen(s: Store, a: Id, d: Id, kind: Kind, luck: Luck, w: Wall)
    requires Foreign(s, a, w) && OwnEvents(s, w)
    ensures Unseen(Commanded(s, a, d, kind, luck).0, s, w)
  {
    if Commanded(s, a, d, kind, luck).1.None? {
      GatedDevice(s, a, d, w);
      QueuedUnseen(s, d, kind, a, w);
      var queued := Queued(s, d, kind, a);
      if Reflected(kind).Some? {
        DeviceRowUnseen(queued, d, s.devices[d].(status := Reflected(kind).value), w);
      }
    }
    hide ViewOf, OwnEvents;
  }

  lemma FileCollectedUnseen(s: Store, env: Env, a: Id, d: Id, path: string, luck: Luck, w: Wall)
    requires Foreign(s, a, w) && OwnEvents(s, w)
    ensures Unseen(FileCollected(s, env, a, d, path, luck).0, s, w)
  {
    CommandedUnseen(s, a, d, CollectFile, luck, w);
    hide ViewOf, OwnEvents, Commanded;
  }

  lemma CertsRevokedUnseen(s: Store, d: Id, w: Wall)
    requires OwnEvents(s, w) && d !in DeviceIds(s.devices, w.tenant)
    ensures Unseen(CertsRevoked(s, d), s, w)
  {
    var own := DeviceIds(s.devices, w.tenant);
    assert CertsFor(CertsRevoked(s, d).certs, own) == CertsFor(s.certs, own);
  }

  lemma RevokedUnseen(s: Store, a: Id, d: Id, luck: Luck, w: Wall)
    requires Foreign(s, a, w) && OwnEvents(s, w)
    ensures Unseen(Revoked(s, a, d, luck).0, s, w)
  {
  }

  lemma EventsClearedUnseen(s: Store, d: Id, events: map<Id, Event>, w: Wall)
    requires OwnEvents(s, w) && d !in DeviceIds(s.devices, w.tenant)
    requires events == map e | e in s.events && s.events[e].device != d :: s.events[e]
    ensures Unseen(s.(events := events, commands := s.commands - {d}), s, w)
  {
    var own := DeviceIds(s.devices, w.tenant);
    assert EventsFor(events, own) == EventsFor(s.events, own);
    assert CommandsFor(s.commands - {d}, own) == CommandsFor(s.commands, own);
  }

  lemma ErasedUnseen(s: Store, a: Id, d: Id, luck: Luck, w: Wall)
    requires Foreign(s, a, w) && OwnEvents(s, w)
    ensures Unseen(Erased(s, a, d, luck).0, s, w)
  {
    hide ViewOf;
    if Erased(s, a, d, luck).1.None? {
      GatedDevice(s, a, d, w);
      var events := map e | e in s.events && s.events[e].device != d :: s.events[e];
      var cleared := s.(events := events, commands := s.commands - {d});
      EventsClearedUnseen(s, d, events, w);
      CertsRevokedUnseen(cleared, d, w);
      hide OwnEvents, CertsRevoked;
      assert Erased(s, a, d, luck).0 == CertsRevoked(cleared, d);
    }
  }

  lemma WipesUnseen(s: Store, wipes: map<Id, Id>, d: Id, w: Wall)
    requires OwnEvents(s, w) && d !in DeviceIds(s.devices, w.tenant) && wipes - {d} == s.wipes - {d}
    ensures Unseen(s.(wipes := wipes), s, w)
  {
    var own := DeviceIds(s.devices, w.tenant);
    assert forall k | k != d :: (k in wipes <==> k in wipes - {d}) && (k in s.wipes <==> k in s.wipes - {d});
    assert forall k | k != d && k in wipes :: wipes[k] == (wipes - {d})[k] == (s.wipes - {d})[k];
    assert WipesFor(wipes, own) == WipesFor(s.wipes, own);
  }

  lemma WipeRequestedUnseen(s: Store, env: Env, a: Id, d: Id, reason: string, luck: Luck, w: Wall)
    requires Foreign(s, a, w) && OwnEvents(s, w)
    ensures Unseen(WipeRequested(s, env, a, d, reason, luck).0, s, w)
  {
    hide ViewOf;
    if WipeRequested(s, env, a, d, reason, luck).1.None? {
      GatedDevice(s, a, d, w);
      WipesUnseen(s, s.wipes[d := a], d, w);
    }
    hide OwnEvents;
  }

  lemma WipeCancelledUnseen(s: Store, a: Id, d: Id, w: Wall)
    requires Foreign(s, a, w) && OwnEvents(s, w)
    ensures Unseen(WipeCancelled(s, a, d).0, s, w)
  {
  }

  lemma WipeApprovedUnseen(s: Store, a: Id, d: Id, luck: Luck, w: Wall)
    requires Foreign(s, a, w) && OwnEvents(s, w)
    ensures Unseen(WipeApproved(s, a, d, luck).0, s, w)
  {
    hide ViewOf;
    if WipeApproved(s, a, d, luck).0 != s {
      GatedDevice(s, a, d, w);
      var claimed := s.(wipes := s.wipes - {d});
      WipesUnseen(s, claimed.wipes, d, w);
      QueuedUnseen(claimed, d, Wipe, a, w);
      hide OwnEvents, Queued;
      assert WipeApproved(s, a, d, luck).0 == claimed || WipeApproved(s, a, d, luck).0 == Queued(claimed, d, Wipe, a);
    }
  }

  lemma CaseUpdatedUnseen(s: Store, env: Env, a: Id, e: Id, assignee: string, note: string, w: Wall)
    requires Foreign(s, a, w) && OwnEvents(s, w)
    ensures Unseen(CaseUpdated(s, env, a, e, assignee, note).0, s, w)
  {
  }

  lemma EventAckedUnseen(s: Store, a: Id, e: Id, status: string, w: Wall)
    requires Foreign(s, a, w) && OwnEvents(s, w)
    ensures Unseen(EventAcked(s, a, e, status).0, s, w)
  {
  }

  lemma PolicyRowUnseen(s: Store, p: Id, row: Policy, w: Wall)
    requires OwnEvents(s, w) && row.tenant != w.tenant && (p in s.policies ==> s.policies[p].tenant != w.tenant)
    ensures Unseen(s.(policies := s.policies[p := row]), s, w)
  {
  }

  lemma PolicyCreatedUnseen(s: Store, env: Env, a: Id, version: string, requested: string, luck: Luck, w: Wall)
    requires Foreign(s, a, w) && OwnEvents(s, w) && luck.newId !in s.policies
    ensures Unseen(PolicyCreated(s, env, a, version, requested, luck).0, s, w)
  {
    hide ViewOf, Normalize;
    if PolicyCreated(s, env, a, version, requested, luck).1.None? {
      PolicyRowUnseen(s, luck.newId, Policy(s.admins[a].tenant, version, []), w);
    }
    hide OwnEvents;
  }

  lemma PublishedUnseen(s: Store, env: Env, devices: multiset<Id>, w: Wall)
    requires OwnEvents(s, w)
    requires w.blurred || forall d | d in devices :: d !in DeviceIds(s.devices, w.tenant)
    ensures Unseen(Published(s, env, devices), s, w)
  {
  }

  lemma PolicyAssignedUnseen(s: Store, env: Env, a: Id, d: Id, p: Id, luck: Luck, w: Wall)
    requires Foreign(s, a, w) && OwnEvents(s, w)
    ensures Unseen(PolicyAssigned(s, env, a, d, p, luck).0, s, w)
  {
    if PolicyAssigned(s, env, a, d, p, luck).1.None? {
      GatedDevice(s, a, d, w);
      var device := s.devices[d].(policy := Some(p), version := s.policies[p].version);
      DeviceRowUnseen(s, d, device, w);
      var placed := s.(devices := s.devices[d := device]);
      assert d !in DeviceIds(placed.devices, w.tenant);
      PublishedUnseen(placed, env, multiset{d}, w);
      hide ViewOf, OwnEvents, Published;
    }
  }

  lemma BumpedDevices(s: Store, env: Env, p: Id, rule: Rule, version: string, w: Wall)
    requires p in s.policies && (w.blurred || !Reaches(s, env, p, version, w))
    ensures var after := Bumped(s, p, rule, version).devices;
            && DevicesOf(after, w.tenant, w.blurred) == DevicesOf(s.devices, w.tenant, w.blurred)
            && DeviceIds(after, w.tenant) == DeviceIds(s.devices, w.tenant)
  {
    hide ActiveDays;
  }

  lemma BumpedUnseen(s: Store, env: Env, p: Id, rule: Rule, version: string, w: Wall)
    requires OwnEvents(s, w) && p in s.policies && s.policies[p].tenant != w.tenant
    requires w.blurred || !Reaches(s, env, p, version, w)
    ensures Unseen(Bumped(s, p, rule, version), s, w)
  {
    hide ActiveDays, Reaches, DevicesOf, DeviceIds;
    var after := Bumped(s, p, rule, version);
    BumpedDevices(s, env, p, rule, version, w);
    assert PoliciesOf(after.policies, w.tenant) == PoliciesOf(s.policies, w.tenant);
    hide PoliciesOf;
  }

  lemma RuleAddedUnseen(s: Store, env: Env, a: Id, p: Id, rule: Rule, luck: Luck, w: Wall)
    requires Foreign(s, a, w) && OwnEvents(s, w)
    requires w.blurred || !AddsReachingRule(s, env, ByAdmin(a, AddRule(p, rule), luck), w)
    ensures Unseen(RuleAdded(s, env, a, p, rule, luck).0, s, w)
  {
    if RuleAdded(s, env, a, p, rule, luck).1.None? {
      var own := s.policies[p].tenant;
      assert own == s.admins[a].tenant;
      BumpedUnseen(s, env, p, rule, luck.newVersion, w);
      var bumped := Bumped(s, p, rule, luck.newVersion);
      assert DeviceIds(bumped.devices, w.tenant) == DeviceIds(s.devices, w.tenant);
      var woken := Audience(s, p, own);
      if env.publishes {
        assert !w.blurred ==> forall d | d in woken :: d !in DeviceIds(s.devices, w.tenant);
        PublishedUnseen(bumped, env, multiset(woken), w);
      }
      hide ViewOf, OwnEvents, Bumped, Audience;
    }
  }

  lemma AdminRowUnseen(s: Store, a: Id, row: Admin, w: Wall)
    requires OwnEvents(s, w) && row.tenant != w.tenant && (a in s.admins ==> s.admins[a].tenant != w.tenant)
    ensures Unseen(s.(admins := s.admins[a := row]), s, w)
  {
  }

  lemma AdminCreatedUnseen(s: Store, env: Env, a: Id, email: string, password: string, role: Role, requested: string,
      luck: Luck, w: Wall)
    requires Foreign(s, a, w) && OwnEvents(s, w) && luck.newId !in s.admins
    ensures Unseen(AdminCreated(s, env, a, email, password, role, requested, luck).0, s, w)
  {
  }

  lemma AdminChangedUnseen(s: Store, a: Id, target: Id, role: Role, w: Wall)
    requires Foreign(s, a, w) && OwnEvents(s, w)
    ensures Unseen(RoleSet(s, a, target, role).0, s, w)
    ensures Unseen(Deactivated(s, a, target).0, s, w)
  {
    if AdminTarget(s, a, target).Ok? {
      AdminRowUnseen(s, target, s.admins[target].(role := role), w);
      AdminRowUnseen(s, target, s.admins[target].(active := false), w);
    }
    hide ViewOf, OwnEvents, LeavesNoAdmin;
  }

  lemma EnrolledUnseen(s: Store, d: Id, tenant: Tenant, clash: bool, w: Wall)
    requires OwnEvents(s, w) && !Equivalent(tenant, w.tenant)
    ensures Unseen(Enrolled(s, d, tenant, clash), s, w)
  {
    if d !in s.devices || (Equivalent(s.devices[d].tenant, tenant) && !clash) {
      DeviceRowUnseen(s, d, Enrolled(s, d, tenant, clash).devices[d], w);
    }
    hide ViewOf, OwnEvents;
  }

  /** One step of a foreign admin: in a blurred view nothing shows; in a sharp one nothing but a
      rule that reaches one of the tenant's devices. */
  lemma PerformedUnseen(s: Store, env: Env, a: Id, op: Op, luck: Luck, w: Wall)
    requires Unused(s, ByAdmin(a, op, luck)) && OwnEvents(s, w) && Foreign(s, a, w)
    requires w.blurred || !AddsReachingRule(s, env, ByAdmin(a, op, luck), w)
    ensures Unseen(Performed(s, env, a, op, luck).0, s, w)
  {
    hide IssuedToken, RevokedToken, Tagged, Commanded, FileCollected, Erased, Revoked, WipeRequested, WipeApproved;
    hide WipeCancelled, CaseUpdated, EventAcked, PolicyCreated, PolicyAssigned, RuleAdded, AdminCreated, RoleSet;
    hide Deactivated;
    hide Unseen, Foreign, OwnEvents, Reaches;
    match op
    case IssueToken(tenant) => IssuedTokenUnseen(s, a, tenant, luck, w);
    case RevokeToken(token) => RevokedTokenUnseen(s, a, token, w);
    case SetTags(d, tags) => TaggedUnseen(s, env, a, d, tags, w);
    case Command(d, kind) => CommandedUnseen(s, a, d, kind, luck, w);
    case CollectFrom(d, path) => FileCollectedUnseen(s, env, a, d, path, luck, w);
    case Erase(d) => ErasedUnseen(s, a, d, luck, w);
    case Revoke(d) => RevokedUnseen(s, a, d, luck, w);
    case RequestWipe(d, reason) => WipeRequestedUnseen(s, env, a, d, reason, luck, w);
    case ApproveWipe(d) => WipeApprovedUnseen(s, a, d, luck, w);
    case CancelWipe(d) => WipeCancelledUnseen(s, a, d, w);
    case UpdateCase(e, assignee, note) => CaseUpdatedUnseen(s, env, a, e, assignee, note, w);
    case AckEvent(e, status) => EventAckedUnseen(s, a, e, status, w);
    case CreatePolicy(version, requested) => PolicyCreatedUnseen(s, env, a, version, requested, luck, w);
    case AssignPolicy(d, p) => PolicyAssignedUnseen(s, env, a, d, p, luck, w);
    case AddRule(p, rule) => RuleAddedUnseen(s, env, a, p, rule, luck, w);
    case CreateAdmin(email, password, role, requested) =>
      AdminCreatedUnseen(s, env, a, email, password, role, requested, luck, w);
    case SetAdminRole(target, role) => AdminChangedUnseen(s, a, target, role, w);
    case Deactivate(target) => AdminChangedUnseen(s, a, target, Viewer, w);
  }

  lemma PublishedCounts(s: Store, env: Env, devices: multiset<Id>, d: Id)
    requires env.publishes && d in devices
    ensures Published(s, env, devices).published[d] > s.published[d]
  {
  }

  /** The exact wall for one step: a tenant's sharp view changes if and only if a rule reaches one
      of its devices. */
  lemma WallExactly(s: Store, env: Env, m: Move, w: Wall)
    requires m.ByAdmin? && Foreign(s, m.actor, w) && Assigned(s) && Unused(s, m) && OwnEvents(s, w) && !w.blurred
    ensures ViewOf(Step(s, env, m), w) != ViewOf(s, w) <==> AddsReachingRule(s, env, m, w)
  {
    hide IssuedToken, RevokedToken, Tagged, Commanded, FileCollected, Erased, Revoked, WipeRequested, WipeApproved;
    hide WipeCancelled, CaseUpdated, EventAcked, PolicyCreated, PolicyAssigned, RuleAdded, AdminCreated, RoleSet;
    hide Deactivated;
    hide ViewOf, OwnEvents, Reaches, Assigned;
    if !AddsReachingRule(s, env, m, w) {
      PerformedUnseen(s, env, m.actor, m.op, m.luck, w);
      hide Performed;
    } else {
      ReachingRuleSeen(s, env, m.actor, m.op.policy, m.op.rule, m.luck, w);
    }
  }

  lemma ReachingRuleSeen(s: Store, env: Env, a: Id, p: Id, rule: Rule, luck: Luck, w: Wall)
    requires Assigned(s) && !w.blurred && AddsReachingRule(s, env, ByAdmin(a, AddRule(p, rule), luck), w)
    ensures ViewOf(RuleAdded(s, env, a, p, rule, luck).0, w) != ViewOf(s, w)
  {
    var d :| d in s.devices && s.devices[d].tenant == w.tenant && s.devices[d].policy == Some(p)
             && (env.publishes || s.devices[d].version != luck.newVersion);
    var bumped := Bumped(s, p, rule, luck.newVersion);
    var after := RuleAdded(s, env, a, p, rule, luck).0;
    assert after.devices == bumped.devices;
    assert d in DeviceIds(s.devices, w.tenant) && d in DeviceIds(after.devices, w.tenant);
    if s.devices[d].version != luck.newVersion {
      assert DevicesOf(after.devices, w.tenant, false)[d].version == luck.newVersion;
      assert DevicesOf(s.devices, w.tenant, false)[d].version != luck.newVersion;
    } else {
      var woken := Audience(s, p, s.policies[p].tenant);
      PublishedCounts(bumped, env, multiset(woken), d);
      assert PublishedFor(after.published, DeviceIds(after.devices, w.tenant))[d] == after.published[d];
      assert PublishedFor(s.published, DeviceIds(s.devices, w.tenant))[d] == s.published[d];
    }
  }

  /** A rule reaches a device of another name for the same tenant only: the default tenant's
      policies are in force on rows from before tenancy. */
  lemma ReachIsWithinATenant(s: Store, env: Env, m: Move, w: Wall)
    requires m.ByAdmin? && Foreign(s, m.actor, w) && Assigned(s) && AddsReachingRule(s, env, m, w)
    ensures Active(s, m.actor) && s.admins[m.actor].tenant == DEFAULT && w.tenant == PLATFORM
  {
  }

  /** Such a rule exists: the admin of the default tenant changes the version on an old row. */
  lemma ReachHappens(env: Env, rule: Rule)
    requires ValidRule(rule)
    ensures exists s: Store, m: Move, w: Wall ::
              m.ByAdmin? && Foreign(s, m.actor, w) && Assigned(s) && AddsReachingRule(s, env, m, w)
  {
    var admins := map["a" := Admin(Administrator, DEFAULT, true)];
    var devices := map["d" := Device(PLATFORM, "ACTIVE", [], Some("p"), "1")];
    var policies := map["p" := Policy(DEFAULT, "1", [])];
    var s := Store(admins, devices, policies, map[], map[], map[], map[], map[], map[], multiset{});
    var m, w := ByAdmin("a", AddRule("p", rule), Luck(true, true, "", "2")), Wall(PLATFORM, {}, false);
    assert "d" in s.devices && s.devices["d"].version != "2";
    assert Foreign(s, "a", w) && Assigned(s) && Reaches(s, env, "p", "2", w);
    hide Foreign, Assigned, Reaches, ActiveDays;
    assert AddsReachingRule(s, env, m, w);
    hide AddsReachingRule;
  }

  /** Nobody of the platform or of the tenant: a foreign admin, or a device that enrols in another
      tenant. In a sharp view the admin's tenant is not another name for this one either. */
  predicate Outsider(s: Store, m: Move, w: Wall) {
    match m
    case ByAdmin(a, _, _) =>
      Foreign(s, a, w) && (Active(s, a) && !w.blurred ==> !Equivalent(s.admins[a].tenant, w.tenant))
    case Enrol(_, t, _) => !Equivalent(t, w.tenant)
  }

  lemma StepUnseen(s: Store, env: Env, m: Move, w: Wall)
    requires Assigned(s) && Unused(s, m) && OwnEvents(s, w) && Outsider(s, m, w)
    ensures Unseen(Step(s, env, m), s, w)
  {
    match m
    case Enrol(d, tenant, clash) => EnrolledUnseen(s, d, tenant, clash, w);
    case ByAdmin(a, op, luck) =>
      if !w.blurred && AddsReachingRule(s, env, m, w) {
        ReachIsWithinATenant(s, env, m, w);
      }
      PerformedUnseen(s, env, a, op, luck, w);
      hide ViewOf, OwnEvents, Performed;
  }

  predicate Outsiders(s: Store, env: Env, moves: seq<Move>, w: Wall)
    decreases |moves|
  {
    moves != [] ==>
      var front := moves[..|moves| - 1];
      Outsiders(s, env, front, w) && Outsider(Run(s, env, front), moves[|moves| - 1], w)
  }

  /** The tenant wall: no run of moves by outsiders changes anything of a tenant, or of the
      platform (the tenant ""): its devices, policies, tokens and admins are the same, none
      added, and so are the commands, certificates, wipe requests, events and wake-ups of its
      devices and the triage of its events. */
  lemma {:induction false} NothingCrossesTheWall(s: Store, env: Env, moves: seq<Move>, w: Wall)
    requires Assigned(s) && UnusedIds(s, env, moves) && OwnEvents(s, w) && Outsiders(s, env, moves, w)
    ensures Unseen(Run(s, env, moves), s, w)
    decreases |moves|
  {
    if moves != [] {
      var front, m := moves[..|moves| - 1], moves[|moves| - 1];
      NothingCrossesTheWall(s, env, front, w);
      AssignmentsAlwaysFit(s, env, front);
      StepUnseen(Run(s, env, front), env, m, w);
      hide Step, ViewOf;
    }
  }
}
