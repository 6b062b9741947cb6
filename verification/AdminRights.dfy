/** Who may do what in the admin service, written out: roles, tenants and inputs, the exact condition
    under which each operation is accepted, and what an accepted operation has then done. */
module AdminRights {
  import opened AdminRuns
  import opened AdminService
  import opened AdminStore
  import opened Results
  import opened Tenants

  // ---- roles --------------------------------------------------------------------------

  /** What an operator may do: tokens, tags, triage, files, certificates, and the commands other than
      scripts, removal and wipes. */
  predicate OperatorMay(op: Op) {
    match op
    case IssueToken(_) => true
    case RevokeToken(_) => true
    case SetTags(_, _) => true
    case Command(_, kind) => kind != RunSignedScript && kind != Uninstall && kind != Wipe
    case CollectFrom(_, _) => true
    case Revoke(_) => true
    case UpdateCase(_, _, _) => true
    case AckEvent(_, _) => true
    case _ => false
  }

  /** The actor is known and active, and an administrator, or an operator where that is enough. */
  predicate Entitled(s: Store, a: Id, op: Op) {
    && a in s.admins && s.admins[a].active
    && (s.admins[a].role == Administrator || (s.admins[a].role == Operator && OperatorMay(op)))
  }

  /** Whoever is not entitled is refused, whatever else is true, and the store stays as it is. */
  lemma RolesEnforced(s: Store, env: Env, a: Id, op: Op, luck: Luck)
    requires !Entitled(s, a, op)
    ensures Performed(s, env, a, op, luck) == (s, Some(Forbidden))
  {
  }

  // ---- what is accepted ---------------------------------------------------------------

  /** An admin of the platform, or of exactly this tenant. */
  predicate Reigns(own: Tenant, owner: Tenant) {
    own == "" || own == owner
  }

  predicate ReignsDevice(s: Store, own: Tenant, d: Id) {
    own == "" || (d in s.devices && s.devices[d].tenant == own)
  }

  predicate ReignsEvent(s: Store, own: Tenant, e: Id) {
    own == "" || (e in s.events && s.events[e].tenant == own)
  }

  /** Admins of a tenant manage only active admins of that tenant. */
  predicate ReignsAdmin(s: Store, own: Tenant, target: Id) {
    own == "" || (target in s.admins && s.admins[target].active && s.admins[target].tenant == own)
  }

  /** Another active administrator of this very scope. */
  predicate Backed(s: Store, a: Id, own: Tenant) {
    exists b | b in s.admins ::
      b != a && s.admins[b].active && s.admins[b].role == Administrator && s.admins[b].tenant == own
  }

  predicate RulesOut(rule: Rule) {
    rule.kind == OtherRule || (rule.kind == TimeBlock && (rule.start == "" || rule.end == ""))
  }

  /** What else an entitled actor of the given tenant needs. */
  predicate InOrder(s: Store, env: Env, a: Id, own: Tenant, op: Op, luck: Luck) {
    match op
    case IssueToken(t) => own == "" || t == "" || t == own
    case RevokeToken(k) => own == "" || (k in s.tokens && s.tokens[k].tenant == own)
    case SetTags(d, _) => ReignsDevice(s, own, d)
    case Command(d, kind) =>
      && ReignsDevice(s, own, d)
      && (kind == Unquarantine || kind == CollectDiagnostics || luck.scopeAllows)
      && (kind == Uninstall || kind == CollectDiagnostics || luck.dispatches)
    case CollectFrom(d, path) =>
      env.text.trim(path) != "" && ReignsDevice(s, own, d) && luck.scopeAllows && luck.dispatches
    case Erase(d) => ReignsDevice(s, own, d) && luck.scopeAllows
    case Revoke(d) => ReignsDevice(s, own, d) && luck.scopeAllows
    case RequestWipe(d, reason) =>
      env.text.trim(d) != "" && |reason| <= 500 && ReignsDevice(s, own, d) && luck.scopeAllows
    case ApproveWipe(d) =>
      ReignsDevice(s, own, d) && luck.scopeAllows && d in s.wipes && s.wipes[d] != a && luck.dispatches
    case CancelWipe(d) => ReignsDevice(s, own, d)
    case UpdateCase(e, assignee, note) =>
      e != "" && |assignee| <= 200 && |note| <= 2000 && ReignsEvent(s, own, e)
    case AckEvent(e, status) =>
      e != "" && (status == "ACKNOWLEDGED" || status == "RESOLVED") && ReignsEvent(s, own, e)
    case CreatePolicy(_, t) =>
      if own == "" then env.text.trim(t) == "" || Normalize(env.text, env.text.trim(t)).Some?
      else t == "" || t == own
    case AssignPolicy(d, p) =>
      && ReignsDevice(s, own, d) && d in s.devices && p in s.policies && luck.scopeAllows
      && (s.policies[p].tenant == "" || (Reigns(own, s.policies[p].tenant)
                                         && Equivalent(s.policies[p].tenant, s.devices[d].tenant)))
    case AddRule(p, rule) => !RulesOut(rule) && p in s.policies && Reigns(own, s.policies[p].tenant)
    case CreateAdmin(email, password, role, t) =>
      && email != "" && |password| >= 8 && role != Other
      && var trimmed := env.text.trim(t);
         (trimmed == "" || (own != "" && trimmed == own)
          || if own == "" then Normalize(env.text, trimmed).Some? else Normalize(env.text, trimmed) == Some(own))
    case SetAdminRole(target, role) =>
      role != Other && ReignsAdmin(s, own, target) && (role == Administrator || a != target || Backed(s, a, own))
    case Deactivate(target) => ReignsAdmin(s, own, target) && (a != target || Backed(s, a, own))
  }

  /** Operations on one device, other than assigning it a policy. */
  predicate OnDevice(op: Op) {
    op.SetTags? || op.Command? || op.CollectFrom? || op.Erase? || op.Revoke? || op.RequestWipe? || op.ApproveWipe?
    || op.CancelWipe?
  }

  lemma DeviceOpAccepted(s: Store, env: Env, a: Id, op: Op, luck: Luck)
    requires Entitled(s, a, op) && OnDevice(op)
    ensures Performed(s, env, a, op, luck).1.None? <==> InOrder(s, env, a, s.admins[a].tenant, op, luck)
  {
    hide CleanTags, Shown, Queued, CertsRevoked;
  }

  lemma OtherOpAccepted(s: Store, env: Env, a: Id, op: Op, luck: Luck)
    requires Entitled(s, a, op) && !OnDevice(op)
    ensures Performed(s, env, a, op, luck).1.None? <==> InOrder(s, env, a, s.admins[a].tenant, op, luck)
  {
    hide Normalize, Bumped, Audience, Published, TriageOf, TriageTenant;
  }

  /** An operation is accepted if and only if the actor is entitled to it and it is in order. */
  lemma AcceptedExactly(s: Store, env: Env, a: Id, op: Op, luck: Luck)
    ensures Performed(s, env, a, op, luck).1.None? <==>
              Entitled(s, a, op) && InOrder(s, env, a, s.admins[a].tenant, op, luck)
  {
    if !Entitled(s, a, op) {
      RolesEnforced(s, env, a, op, luck);
    } else if OnDevice(op) {
      DeviceOpAccepted(s, env, a, op, luck);
    } else {
      OtherOpAccepted(s, env, a, op, luck);
    }
    hide Performed, InOrder, Entitled;
  }

  /** A refused approval of a wipe that was in order but for the command plane has used up the request. */
  lemma RefusedApproval(s: Store, env: Env, a: Id, d: Id, luck: Luck)
    requires Performed(s, env, a, ApproveWipe(d), luck).1.Some?
    ensures Performed(s, env, a, ApproveWipe(d), luck).0
         == if Entitled(s, a, ApproveWipe(d))
               && InOrder(s, env, a, s.admins[a].tenant, ApproveWipe(d), luck.(dispatches := true))
            then s.(wipes := s.wipes - {d}) else s
  {
    hide Queued;
  }

  lemma OtherRefusal(s: Store, env: Env, a: Id, op: Op, luck: Luck)
    requires !op.ApproveWipe? && Performed(s, env, a, op, luck).1.Some?
    ensures Performed(s, env, a, op, luck).0 == s
  {
    hide Normalize, CleanTags, Shown, Queued, CertsRevoked, Bumped, Audience, Published, Allowed, Gate, PolicyOwner;
  }

  /** A refusal leaves the store as it is, with one exception: an approved wipe that the command plane
      turns down has used up its request. */
  lemma RefusedChangesNothing(s: Store, env: Env, a: Id, op: Op, luck: Luck)
    requires Performed(s, env, a, op, luck).1.Some?
    ensures Performed(s, env, a, op, luck).0
         == if op.ApproveWipe? && Entitled(s, a, op)
               && InOrder(s, env, a, s.admins[a].tenant, op, luck.(dispatches := true))
            then s.(wipes := s.wipes - {op.device}) else s
  {
    if op.ApproveWipe? {
      RefusedApproval(s, env, a, op.device, luck);
    } else {
      OtherRefusal(s, env, a, op, luck);
    }
    hide Performed, InOrder, Entitled;
  }

  // ---- what an accepted operation has done --------------------------------------------

  /** Only this row of a table has changed. */
  predicate OnlyRow<T(==)>(after: map<Id, T>, before: map<Id, T>, id: Id) {
    after - {id} == before - {id}
  }

  lemma RowSet<T>(m: map<Id, T>, id: Id, row: T)
    ensures OnlyRow(m[id := row], m, id)
  {
  }

  lemma Unchanged<T>(m: map<Id, T>, id: Id)
    ensures OnlyRow(m, m, id)
  {
  }

  predicate Appended(after: Store, s: Store, d: Id, command: Cmd) {
    d in after.commands && after.commands[d] == (if d in s.commands then s.commands[d] else []) + [command]
    && OnlyRow(after.commands, s.commands, d)
  }

  /** The certificates of the device, and no others, are revoked; none appears or disappears. */
  ghost predicate Withdrawn(after: map<Id, Cert>, before: map<Id, Cert>, d: Id) {
    && after.Keys == before.Keys
    && forall c | c in before ::
         after[c].device == before[c].device && (after[c].revoked <==> before[c].device == d || before[c].revoked)
  }

  predicate StatusShown(after: Store, s: Store, d: Id, kind: Kind) {
    && OnlyRow(after.devices, s.devices, d) && (d in after.devices <==> d in s.devices)
    && (d in s.devices ==>
          after.devices[d]
          == s.devices[d].(status := if kind == Quarantine then "QUARANTINE_PENDING"
                                     else if kind == Unquarantine then "ACTIVE" else s.devices[d].status))
  }

  /** What an accepted operation on one device has done. */
  ghost predicate DeviceDone(s: Store, env: Env, a: Id, op: Op, after: Store) {
    match op
    case SetTags(d, tags) =>
      && OnlyRow(after.devices, s.devices, d) && (d in after.devices <==> d in s.devices)
      && (d in s.devices ==> FirstTags(env.text, tags, after.devices[d].tags)
                             && after.devices[d] == s.devices[d].(tags := after.devices[d].tags))
    case Command(d, kind) => Appended(after, s, d, Cmd(kind, a)) && StatusShown(after, s, d, kind)
    case CollectFrom(d, _) => Appended(after, s, d, Cmd(CollectFile, a))
    case Erase(d) =>
      && (forall e :: e in after.events <==> e in s.events && s.events[e].device != d)
      && (forall e | e in after.events :: after.events[e] == s.events[e])
      && d !in after.commands && OnlyRow(after.commands, s.commands, d) && Withdrawn(after.certs, s.certs, d)
    case Revoke(d) => Withdrawn(after.certs, s.certs, d)
    case RequestWipe(d, _) => d in after.wipes && after.wipes[d] == a && OnlyRow(after.wipes, s.wipes, d)
    case ApproveWipe(d) =>
      d !in after.wipes && OnlyRow(after.wipes, s.wipes, d) && Appended(after, s, d, Cmd(Wipe, a))
    case CancelWipe(d) => d !in after.wipes && OnlyRow(after.wipes, s.wipes, d)
    case _ => true
  }

  lemma TagsAreFirst(text: Text, tags: seq<string>)
    ensures FirstTags(text, tags, CleanTags(text, tags, []))
  {
    CleanTagsAreFirst(text, [], tags, []);
    assert [] + tags == tags;
    hide CleanTags;
  }

  lemma TagsDone(s: Store, env: Env, a: Id, d: Id, tags: seq<string>, luck: Luck)
    requires Performed(s, env, a, SetTags(d, tags), luck).1.None?
    ensures DeviceDone(s, env, a, SetTags(d, tags), Performed(s, env, a, SetTags(d, tags), luck).0)
  {
    TagsAreFirst(env.text, tags);
    hide FirstTags, CleanTags, OnlyRow, Allowed, DeviceGate;
    Unchanged(s.devices, d);
    if d in s.devices {
      RowSet(s.devices, d, s.devices[d].(tags := CleanTags(env.text, tags, [])));
    }
  }

  lemma QueuedAppends(s: Store, d: Id, kind: Kind, a: Id)
    ensures Appended(Queued(s, d, kind, a), s, d, Cmd(kind, a))
  {
  }

  lemma ShownStatus(s: Store, d: Id, kind: Kind)
    ensures StatusShown(Shown(s, d, kind), s, d, kind)
  {
  }

  lemma CertsWithdrawn(s: Store, d: Id)
    ensures Withdrawn(CertsRevoked(s, d).certs, s.certs, d)
  {
  }

  lemma CommandDone(s: Store, env: Env, a: Id, d: Id, kind: Kind, luck: Luck)
    requires Performed(s, env, a, Command(d, kind), luck).1.None?
    ensures DeviceDone(s, env, a, Command(d, kind), Performed(s, env, a, Command(d, kind), luck).0)
  {
    QueuedAppends(s, d, kind, a);
    ShownStatus(Queued(s, d, kind, a), d, kind);
    hide Shown, Allowed, DeviceGate, InScope, Passes, CommandsOf, OnlyRow;
  }

  lemma FileDone(s: Store, env: Env, a: Id, d: Id, path: string, luck: Luck)
    requires Performed(s, env, a, CollectFrom(d, path), luck).1.None?
    ensures DeviceDone(s, env, a, CollectFrom(d, path), Performed(s, env, a, CollectFrom(d, path), luck).0)
  {
    QueuedAppends(s, d, CollectFile, a);
    hide Allowed, DeviceGate, InScope, Passes, Queued, Appended;
  }

  lemma EraseDone(s: Store, env: Env, a: Id, d: Id, luck: Luck)
    requires Performed(s, env, a, Erase(d), luck).1.None?
    ensures DeviceDone(s, env, a, Erase(d), Performed(s, env, a, Erase(d), luck).0)
  {
    var cleared := s.(
      events := map e | e in s.events && s.events[e].device != d :: s.events[e], commands := s.commands - {d});
    CertsWithdrawn(cleared, d);
    hide Withdrawn, Allowed, DeviceGate;
  }

  lemma RevokeDone(s: Store, env: Env, a: Id, d: Id, luck: Luck)
    requires Performed(s, env, a, Revoke(d), luck).1.None?
    ensures DeviceDone(s, env, a, Revoke(d), Performed(s, env, a, Revoke(d), luck).0)
  {
    CertsWithdrawn(s, d);
    hide Withdrawn, CertsRevoked, Allowed, DeviceGate;
  }

  lemma WipeOpDone(s: Store, env: Env, a: Id, op: Op, luck: Luck)
    requires op.RequestWipe? || op.ApproveWipe? || op.CancelWipe?
    requires Performed(s, env, a, op, luck).1.None?
    ensures DeviceDone(s, env, a, op, Performed(s, env, a, op, luck).0)
  {
    QueuedAppends(s.(wipes := s.wipes - {op.device}), op.device, Wipe, a);
    hide CommandsOf, Allowed, DeviceGate;
  }

  /** An accepted operation on a device has done its work there, and nothing anywhere else. */
  lemma DeviceOpDone(s: Store, env: Env, a: Id, op: Op, luck: Luck)
    requires OnDevice(op) && Performed(s, env, a, op, luck).1.None?
    ensures DeviceDone(s, env, a, op, Performed(s, env, a, op, luck).0)
  {
    match op
    case SetTags(d, tags) => TagsDone(s, env, a, d, tags, luck);
    case Command(d, kind) => CommandDone(s, env, a, d, kind, luck);
    case CollectFrom(d, path) => FileDone(s, env, a, d, path, luck);
    case Erase(d) => EraseDone(s, env, a, d, luck);
    case Revoke(d) => RevokeDone(s, env, a, d, luck);
    case _ => WipeOpDone(s, env, a, op, luck);
    hide DeviceDone, Performed;
  }

  /** The tenant a platform admin names, if it names one. */
  predicate NamesTenant(env: Env, requested: string, t: Tenant) {
    var trimmed := env.text.trim(requested);
    if trimmed == "" then t == "" else Normalize(env.text, trimmed) == Some(t)
  }

  /** New rows of an admin belong to the admin's tenant; the platform's to the one it names. */
  predicate Belongs(env: Env, own: Tenant, requested: string, t: Tenant) {
    if own == "" then NamesTenant(env, requested, t) else t == own
  }

  /** The triage record of the event before, blank if there is none. */
  function RecordBefore(s: Store, e: Id): Triage {
    if e in s.triage then s.triage[e] else Triage("", "", "", "", "")
  }

  /** Where the record belongs: the event's tenant, or the record's once the event is gone. */
  function RecordTenant(s: Store, e: Id): Tenant {
    var t := if e in s.events then s.events[e].tenant else RecordBefore(s, e).tenant;
    if t == "" then "default" else t
  }

  /** The days asked for, or every day if none of them is one. */
  ghost predicate RuleDays(asked: seq<int>, kept: seq<int>) {
    forall d :: d in kept <==> if exists x | x in asked :: x >= 0 then d in asked && d >= 0 else 0 <= d <= 6
  }

  ghost predicate RuleIn(after: Store, s: Store, env: Env, p: Id, rule: Rule, version: string)
    requires p in s.policies
  {
    && p in after.policies && OnlyRow(after.policies, s.policies, p)
    && (exists days :: RuleDays(rule.days, days)
                       && after.policies[p] == Policy(s.policies[p].tenant, version,
                                                      s.policies[p].rules + [rule.(days := days)]))
    && after.devices.Keys == s.devices.Keys
    && forall d | d in s.devices ::
         && after.devices[d] == (if s.devices[d].policy == Some(p) then s.devices[d].(version := version)
                                 else s.devices[d])
  }

  /** The policy's devices are woken, each once: those of its tenant, or all if it is shared. */
  ghost predicate Woken(after: Store, s: Store, env: Env, p: Id)
    requires p in s.policies
  {
    forall d :: after.published[d]
             == s.published[d] + if env.publishes && d in s.devices && s.devices[d].policy == Some(p)
                                    && (s.policies[p].tenant == ""
                                        || Equivalent(s.policies[p].tenant, s.devices[d].tenant)) then 1 else 0
  }

  /** What any other accepted operation has done. */
  ghost predicate OtherDone(s: Store, env: Env, a: Id, own: Tenant, op: Op, luck: Luck, after: Store) {
    match op
    case IssueToken(t) =>
      && luck.newId in after.tokens && OnlyRow(after.tokens, s.tokens, luck.newId)
      && after.tokens[luck.newId] == Token(if own == "" then t else own, a, false)
    case RevokeToken(k) =>
      && OnlyRow(after.tokens, s.tokens, k) && (k in after.tokens <==> k in s.tokens)
      && (k in s.tokens ==> after.tokens[k] == s.tokens[k].(used := true))
    case UpdateCase(e, assignee, note) =>
      && e in after.triage && OnlyRow(after.triage, s.triage, e)
      && after.triage[e]
         == Triage(RecordTenant(s, e), RecordBefore(s, e).status, env.text.trim(assignee), env.text.trim(note), a)
    case AckEvent(e, status) =>
      && e in after.triage && OnlyRow(after.triage, s.triage, e)
      && after.triage[e]
         == Triage(RecordTenant(s, e), status, RecordBefore(s, e).assignee, RecordBefore(s, e).note, a)
    case CreatePolicy(version, requested) =>
      && luck.newId in after.policies && OnlyRow(after.policies, s.policies, luck.newId)
      && after.policies[luck.newId].version == version && after.policies[luck.newId].rules == []
      && Belongs(env, own, requested, after.policies[luck.newId].tenant)
    case AssignPolicy(d, p) =>
      && p in s.policies && d in s.devices && d in after.devices && OnlyRow(after.devices, s.devices, d)
      && after.devices[d] == s.devices[d].(policy := Some(p), version := s.policies[p].version)
      && after.published == s.published + (if env.publishes then multiset{d} else multiset{})
    case AddRule(p, rule) =>
      p in s.policies && RuleIn(after, s, env, p, rule, luck.newVersion) && Woken(after, s, env, p)
    case CreateAdmin(_, _, role, requested) =>
      && luck.newId in after.admins && OnlyRow(after.admins, s.admins, luck.newId)
      && after.admins[luck.newId].role == role && after.admins[luck.newId].active
      && Belongs(env, own, requested, after.admins[luck.newId].tenant)
    case SetAdminRole(target, role) =>
      && OnlyRow(after.admins, s.admins, target) && (target in after.admins <==> target in s.admins)
      && (target in s.admins ==> after.admins[target] == s.admins[target].(role := role))
    case Deactivate(target) =>
      && OnlyRow(after.admins, s.admins, target) && (target in after.admins <==> target in s.admins)
      && (target in s.admins ==> after.admins[target] == s.admins[target].(active := false))
    case _ => true
  }

  lemma {:induction false} KeptDaysAre(days: seq<int>)
    ensures forall d :: d in KeptDays(days) <==> d in days && d >= 0
  {
    if days != [] {
      KeptDaysAre(days[1..]);
      assert days == [days[0]] + days[1..];
    }
  }

  lemma ActiveDaysAre(days: seq<int>)
    ensures RuleDays(days, ActiveDays(days))
  {
    KeptDaysAre(days);
    var kept := KeptDays(days);
    if kept == [] {
      assert forall x | x in days :: x >= 0 ==> x in kept;
    } else {
      assert kept[0] in kept && kept[0] in days && kept[0] >= 0;
    }
    hide KeptDays;
  }

  lemma RuleDone(s: Store, env: Env, a: Id, p: Id, rule: Rule, luck: Luck)
    requires Performed(s, env, a, AddRule(p, rule), luck).1.None?
    ensures var after := Performed(s, env, a, AddRule(p, rule), luck).0;
            p in s.policies && RuleIn(after, s, env, p, rule, luck.newVersion) && Woken(after, s, env, p)
  {
    ActiveDaysAre(rule.days);
    hide RuleDays, ActiveDays;
  }

  lemma CaseDone(s: Store, env: Env, a: Id, e: Id, assignee: string, note: string, luck: Luck)
    requires Performed(s, env, a, UpdateCase(e, assignee, note), luck).1.None?
    ensures var op := UpdateCase(e, assignee, note);
            OtherDone(s, env, a, s.admins[a].tenant, op, luck, Performed(s, env, a, op, luck).0)
  {
    hide Allowed, EventGate, OnlyRow;
    var record := CaseUpdated(s, env, a, e, assignee, note).0.triage[e];
    RowSet(s.triage, e, record);
  }

  lemma AckDone(s: Store, env: Env, a: Id, e: Id, status: string, luck: Luck)
    requires Performed(s, env, a, AckEvent(e, status), luck).1.None?
    ensures var op := AckEvent(e, status);
            OtherDone(s, env, a, s.admins[a].tenant, op, luck, Performed(s, env, a, op, luck).0)
  {
    hide Allowed, EventGate, OnlyRow;
    var record := EventAcked(s, a, e, status).0.triage[e];
    RowSet(s.triage, e, record);
  }

  lemma NewRowDone(s: Store, env: Env, a: Id, op: Op, luck: Luck)
    requires (op.CreatePolicy? || op.CreateAdmin? || op.IssueToken?) && Performed(s, env, a, op, luck).1.None?
    ensures a in s.admins && OtherDone(s, env, a, s.admins[a].tenant, op, luck, Performed(s, env, a, op, luck).0)
  {
    hide Normalize;
  }

  lemma TokenRevokeDone(s: Store, env: Env, a: Id, k: Id, luck: Luck)
    requires Performed(s, env, a, RevokeToken(k), luck).1.None?
    ensures OtherDone(s, env, a, s.admins[a].tenant, RevokeToken(k), luck,
                      Performed(s, env, a, RevokeToken(k), luck).0)
  {
    hide Allowed, OnlyRow;
    if k in s.tokens {
      RowSet(s.tokens, k, s.tokens[k].(used := true));
    } else {
      Unchanged(s.tokens, k);
    }
  }

  lemma AssignDone(s: Store, env: Env, a: Id, d: Id, p: Id, luck: Luck)
    requires Performed(s, env, a, AssignPolicy(d, p), luck).1.None?
    ensures OtherDone(s, env, a, s.admins[a].tenant, AssignPolicy(d, p), luck,
                      Performed(s, env, a, AssignPolicy(d, p), luck).0)
  {
    hide Allowed, DeviceGate, FitsDevice, OnlyRow;
    if d in s.devices && p in s.policies {
      RowSet(s.devices, d, s.devices[d].(policy := Some(p), version := s.policies[p].version));
    }
  }

  lemma RoleDone(s: Store, env: Env, a: Id, target: Id, role: Role, luck: Luck)
    requires Performed(s, env, a, SetAdminRole(target, role), luck).1.None?
    ensures OtherDone(s, env, a, s.admins[a].tenant, SetAdminRole(target, role), luck,
                      Performed(s, env, a, SetAdminRole(target, role), luck).0)
  {
    hide Allowed, LeavesNoAdmin, AdminTarget, OnlyRow;
    Unchanged(s.admins, target);
    if target in s.admins {
      RowSet(s.admins, target, s.admins[target].(role := role));
    }
  }

  lemma DeactivateDone(s: Store, env: Env, a: Id, target: Id, luck: Luck)
    requires Performed(s, env, a, Deactivate(target), luck).1.None?
    ensures OtherDone(s, env, a, s.admins[a].tenant, Deactivate(target), luck,
                      Performed(s, env, a, Deactivate(target), luck).0)
  {
    hide Allowed, LeavesNoAdmin, AdminTarget, OnlyRow;
    Unchanged(s.admins, target);
    if target in s.admins {
      RowSet(s.admins, target, s.admins[target].(active := false));
    }
  }

  /** Any other accepted operation has done its work, and nothing else. */
  lemma OtherOpDone(s: Store, env: Env, a: Id, op: Op, luck: Luck)
    requires !OnDevice(op) && Performed(s, env, a, op, luck).1.None?
    ensures a in s.admins && OtherDone(s, env, a, s.admins[a].tenant, op, luck, Performed(s, env, a, op, luck).0)
  {
    AcceptedExactly(s, env, a, op, luck);
    hide RuleIn, Woken, Performed, InOrder;
    if op.AddRule? {
      RuleDone(s, env, a, op.policy, op.rule, luck);
    } else {
      hide OtherDone;
      match op
      case UpdateCase(e, assignee, note) => CaseDone(s, env, a, e, assignee, note, luck);
      case AckEvent(e, status) => AckDone(s, env, a, e, status, luck);
      case RevokeToken(k) => TokenRevokeDone(s, env, a, k, luck);
      case AssignPolicy(d, p) => AssignDone(s, env, a, d, p, luck);
      case CreatePolicy(_, _) => NewRowDone(s, env, a, op, luck);
      case CreateAdmin(_, _, _, _) => NewRowDone(s, env, a, op, luck);
      case IssueToken(_) => NewRowDone(s, env, a, op, luck);
      case SetAdminRole(target, role) => RoleDone(s, env, a, target, role, luck);
      case Deactivate(target) => DeactivateDone(s, env, a, target, luck);
    }
  }

  /** The row of a device after enrolment. An unknown device is active in the token's tenant. A known
      one of that tenant, with no clashing address, keeps everything, a quarantine included, but comes
      back if it was away and joins the default tenant if it had none. */
  function RowEnrolled(s: Store, d: Id, tenant: Tenant, clash: bool): Device {
    if d !in s.devices then Device(tenant, "ACTIVE", [], None, "")
    else
      var device := s.devices[d];
      var own := if device.tenant == "" then "default" else device.tenant;
      var away := device.status == "PENDING_ENROLLMENT" || device.status == "OFFLINE"
                  || device.status == "UNINSTALLED" || device.status == "";
      if clash || own != (if tenant == "" then "default" else tenant) then device
      else device.(tenant := own, status := if away then "ACTIVE" else device.status)
  }

  /** Enrolment gives the device this row, and nothing else happens. */
  lemma EnrolledDone(s: Store, d: Id, tenant: Tenant, clash: bool)
    ensures var after := Enrolled(s, d, tenant, clash);
            && after == s.(devices := after.devices) && OnlyRow(after.devices, s.devices, d)
            && d in after.devices && after.devices[d] == RowEnrolled(s, d, tenant, clash)
  {
    Unchanged(s.devices, d);
    RowSet(s.devices, d, RowEnrolled(s, d, tenant, clash));
    hide OnlyRow;
  }

  // ---- what stays withdrawn -----------------------------------------------------------

  /** The certificate is revoked and the token used up. */
  predicate Dead(s: Store, cert: Id, token: Id) {
    (cert in s.certs && s.certs[cert].revoked) && (token in s.tokens && s.tokens[token].used)
  }

  lemma CertsRevokedDead(s: Store, d: Id, cert: Id, token: Id)
    requires Dead(s, cert, token)
    ensures Dead(CertsRevoked(s, d), cert, token)
  {
  }

  lemma PerformedDead(s: Store, env: Env, a: Id, op: Op, luck: Luck, cert: Id, token: Id)
    requires Dead(s, cert, token) && Unused(s, ByAdmin(a, op, luck))
    ensures Dead(Performed(s, env, a, op, luck).0, cert, token)
  {
    hide CleanTags, Shown, Queued, CertsRevoked, Bumped, Audience, Normalize, Allowed, DeviceGate;
    if op.Erase? {
      CertsRevokedDead(s, op.device, cert, token);
      var cleared := s.(events := map e | e in s.events && s.events[e].device != op.device :: s.events[e],
                        commands := s.commands - {op.device});
      CertsRevokedDead(cleared, op.device, cert, token);
    } else if op.Revoke? {
      CertsRevokedDead(s, op.device, cert, token);
    }
  }

  /** Over every run a revoked certificate stays revoked and a used-up token used up. */
  lemma {:induction false} WithdrawnForGood(s: Store, env: Env, moves: seq<Move>, cert: Id, token: Id)
    requires Dead(s, cert, token) && UnusedIds(s, env, moves)
    ensures Dead(Run(s, env, moves), cert, token)
    decreases |moves|
  {
    if moves != [] {
      var front, m := moves[..|moves| - 1], moves[|moves| - 1];
      WithdrawnForGood(s, env, front, cert, token);
      hide Performed, Enrolled;
      if m.ByAdmin? {
        PerformedDead(Run(s, env, front), env, m.actor, m.op, m.luck, cert, token);
      }
    }
  }

  // ---- names of tenants ---------------------------------------------------------------

  predicate WellNamed(t: Tenant) {
    t == "" || IsLabel(t)
  }

  /** Admins and policies belong to the platform or to a tenant with a well-formed name. */
  predicate AllNamed(s: Store) {
    && (forall a | a in s.admins :: WellNamed(s.admins[a].tenant))
    && forall p | p in s.policies :: WellNamed(s.policies[p].tenant)
  }

  lemma BelongsNamed(env: Env, own: Tenant, requested: string, t: Tenant)
    requires Belongs(env, own, requested, t) && WellNamed(own)
    ensures WellNamed(t)
  {
    NormalizedExactly(env.text, env.text.trim(requested), t);
    hide IsLabel;
  }

  lemma AdminCreatedNamed(s: Store, env: Env, a: Id, op: Op, luck: Luck)
    requires AllNamed(s) && op.CreateAdmin?
    ensures AllNamed(Performed(s, env, a, op, luck).0)
  {
    hide WellNamed;
    var after := Performed(s, env, a, op, luck);
    if after.1.None? {
      NewRowDone(s, env, a, op, luck);
      BelongsNamed(env, s.admins[a].tenant, op.requested, after.0.admins[luck.newId].tenant);
    }
    hide Normalize, Belongs;
  }

  lemma PolicyCreatedNamed(s: Store, env: Env, a: Id, op: Op, luck: Luck)
    requires AllNamed(s) && op.CreatePolicy?
    ensures AllNamed(Performed(s, env, a, op, luck).0)
  {
    hide WellNamed;
    var after := Performed(s, env, a, op, luck);
    if after.1.None? {
      NewRowDone(s, env, a, op, luck);
      BelongsNamed(env, s.admins[a].tenant, op.requested, after.0.policies[luck.newId].tenant);
    }
    hide Normalize, Belongs;
  }

  lemma OthersNamed(s: Store, env: Env, a: Id, op: Op, luck: Luck)
    requires AllNamed(s) && !op.CreateAdmin? && !op.CreatePolicy?
    ensures AllNamed(Performed(s, env, a, op, luck).0)
  {
    hide WellNamed, Normalize, CleanTags, CertsRevoked, Allowed, Gate, ActiveDays, Audience;
  }

  /** Over every run, tenants get well-formed names only. */
  lemma {:induction false} TenantsStayNamed(s: Store, env: Env, moves: seq<Move>)
    requires AllNamed(s)
    ensures AllNamed(Run(s, env, moves))
    decreases |moves|
  {
    if moves != [] {
      var front, m := moves[..|moves| - 1], moves[|moves| - 1];
      TenantsStayNamed(s, env, front);
      hide Performed, Enrolled;
      match m
      case ByAdmin(a, op, luck) =>
        if op.CreateAdmin? {
          AdminCreatedNamed(Run(s, env, front), env, a, op, luck);
        } else if op.CreatePolicy? {
          PolicyCreatedNamed(Run(s, env, front), env, a, op, luck);
        } else {
          OthersNamed(Run(s, env, front), env, a, op, luck);
        }
      case Enrol(_, _, _) =>
    }
  }
}
