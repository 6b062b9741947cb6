/** What the admin service stores, and the gates that decide who may touch it. */
module AdminStore {
  import opened Results
  import opened Tenants

  type Id = string

  datatype Role = Viewer | Operator | Administrator | Other

  datatype Kind =
    | Quarantine | Unquarantine | RunSignedScript | Uninstall | CollectDiagnostics
    | CollectFile | Lock | Restart | Wipe

  datatype RuleType = TimeBlock | BlockAlways | NetworkRule | OtherRule

  datatype Rule = Rule(kind: RuleType, target: string, start: string, end: string, days: seq<int>)

  datatype Admin = Admin(role: Role, tenant: Tenant, active: bool)
  datatype Device = Device(tenant: Tenant, status: string, tags: seq<string>, policy: Option<Id>, version: string)
  datatype Policy = Policy(tenant: Tenant, version: string, rules: seq<Rule>)
  datatype Event = Event(device: Id, tenant: Tenant)
  datatype Triage = Triage(tenant: Tenant, status: string, assignee: string, note: string, author: Id)
  datatype Token = Token(tenant: Tenant, author: Id, used: bool)
  datatype Cert = Cert(device: Id, revoked: bool)
  datatype Cmd = Cmd(kind: Kind, issuer: Id)

  /** The tables; commands is the command history per device, wipes maps a device to the admin
      who asked for its wipe, and published counts the wake-ups of each device's policy stream. */
  datatype Store = Store(
    admins: map<Id, Admin>, devices: map<Id, Device>, policies: map<Id, Policy>, events: map<Id, Event>,
    triage: map<Id, Triage>, tokens: map<Id, Token>, certs: map<Id, Cert>, commands: map<Id, seq<Cmd>>,
    wipes: map<Id, Id>, published: multiset<Id>)

  datatype Error = Forbidden | UnknownAdmin | InvalidInput | InvalidRule | LastAdmin | OutOfScope | PlaneRefused

  // ---- reading the store --------------------------------------------------------------

  function Rank(r: Role): nat {
    match r
    case Viewer => 1
    case Operator => 2
    case Administrator => 3
    case Other => 0
  }

  predicate Active(s: Store, a: Id) {
    a in s.admins && s.admins[a].active
  }

  /** An inactive or unknown admin has no role. */
  predicate Allowed(s: Store, a: Id, min: Role) {
    Rank(if Active(s, a) then s.admins[a].role else Other) >= Rank(min)
  }

  /** An inactive or unknown admin has no tenant, in particular not the platform. */
  function TenantOf(s: Store, a: Id): Option<Tenant> {
    if Active(s, a) then Some(s.admins[a].tenant) else None
  }

  function DeviceTenant(s: Store, d: Id): Tenant {
    if d in s.devices then s.devices[d].tenant else ""
  }

  function EventTenant(s: Store, e: Id): Tenant {
    if e in s.events then s.events[e].tenant else ""
  }

  function CommandsOf(s: Store, d: Id): seq<Cmd> {
    if d in s.commands then s.commands[d] else []
  }

  // ---- the command table --------------------------------------------------------------

  function MinRole(kind: Kind): Role {
    if kind.RunSignedScript? || kind.Uninstall? || kind.Wipe? then Administrator else Operator
  }

  predicate ScopeExempt(kind: Kind) {
    kind.Unquarantine? || kind.CollectDiagnostics?
  }

  predicate PlaneRouted(kind: Kind) {
    !kind.Uninstall? && !kind.CollectDiagnostics?
  }

  /** The device status shown after the command is queued, if it changes. */
  function Reflected(kind: Kind): Option<string> {
    match kind
    case Quarantine => Some("QUARANTINE_PENDING")
    case Unquarantine => Some("ACTIVE")
    case _ => None
  }

  // ---- the tenant gates ---------------------------------------------------------------

  function Gate(caller: Option<Tenant>, owner: Tenant): (refusal: Option<Error>)
    ensures refusal.None? <==> caller.Some? && (caller.value == PLATFORM || caller.value == owner)
  {
    match caller
    case None => Some(UnknownAdmin)
    case Some(t) => if t != PLATFORM && owner != t then Some(Forbidden) else None
  }

  function DeviceGate(s: Store, a: Id, d: Id): Option<Error> {
    Gate(TenantOf(s, a), DeviceTenant(s, d))
  }

  function EventGate(s: Store, a: Id, e: Id): Option<Error> {
    Gate(TenantOf(s, a), EventTenant(s, e))
  }

  /** The policy's owner, if the admin may read it, or with write change it. */
  function PolicyOwner(s: Store, a: Id, p: Id, write: bool): Result<Tenant, Error> {
    match TenantOf(s, a)
    case None => Err(UnknownAdmin)
    case Some(t) =>
      if p !in s.policies then Err(Forbidden)
      else
        var owner := s.policies[p].tenant;
        if t == PLATFORM || owner == t || (!write && owner == PLATFORM) then Ok(owner) else Err(Forbidden)
  }

  /** The tenant of the acting admin, if it may change the target admin. */
  function AdminTarget(s: Store, a: Id, target: Id): Result<Tenant, Error> {
    match TenantOf(s, a)
    case None => Err(UnknownAdmin)
    case Some(t) =>
      if t == PLATFORM then Ok(PLATFORM)
      else
        match TenantOf(s, target)
        case None => Err(UnknownAdmin)
        case Some(u) => if u == PLATFORM || u != t then Err(Forbidden) else Ok(t)
  }

  predicate FitsDevice(policy: Tenant, device: Tenant) {
    policy == PLATFORM || Equivalent(policy, device)
  }

  // ---- the last-admin guard -----------------------------------------------------------

  predicate ActiveAdmin(s: Store, a: Id, scope: Tenant) {
    Active(s, a) && s.admins[a].role == Administrator && s.admins[a].tenant == scope
  }

  /** Somebody else is an active ADMIN of exactly this scope. */
  predicate OtherAdmin(s: Store, a: Id, scope: Tenant) {
    exists b | b in s.admins :: b != a && ActiveAdmin(s, b, scope)
  }

  /** The scan over the listed admins, in whatever order they are listed. */
  method HasOtherActiveAdmin(s: Store, a: Id, scope: Tenant) returns (found: bool)
    ensures found == OtherAdmin(s, a, scope)
  {
    var infos := set b | b in s.admins && (scope == PLATFORM || s.admins[b].tenant == scope);
    var rest := infos;
    while rest != {}
      invariant rest <= infos
      invariant forall b | b in infos - rest :: b == a || !ActiveAdmin(s, b, scope)
      decreases |rest|
    {
      var b :| b in rest;
      rest := rest - {b};
      var info := s.admins[b];
      if b == a || !info.active || info.role != Administrator {
        continue;
      }
      if scope == PLATFORM && info.tenant != PLATFORM {
        continue;
      }
      return true;
    }
    return false;
  }
}
