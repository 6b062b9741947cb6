/** The admin service: every operation as guards in the source's order, then the change. */
module AdminService {
  import opened AdminStore
  import opened Results
  import opened Tenants

  /** The outcomes of the collaborators not modelled and the random or clock values drawn: the
      scope engine's decision, the command plane's, a new identifier, a new version label. */
  datatype Luck = Luck(scopeAllows: bool, dispatches: bool, newId: Id, newVersion: string)

  /** Fixed for a service: the string library and whether a publisher is connected. */
  datatype Env = Env(text: Text, publishes: bool)

  /** The store afterwards and the refusal, if any. */
  type Outcome = (Store, Option<Error>)

  const MIN_PASSWORD := 8
  const MAX_TAGS := 20
  const MAX_TAG_LENGTH := 40
  const MAX_REASON := 500
  const MAX_ASSIGNEE := 200
  const MAX_NOTE := 2000
  const EVERY_DAY := [1, 2, 3, 4, 5, 6, 0]

  function Refused(s: Store, e: Error): Outcome { (s, Some(e)) }

  function Done(s: Store): Outcome { (s, None) }

  /** Goes on when there is no refusal. */
  function Unless(refusal: Option<Error>, s: Store, otherwise: Outcome): Outcome {
    if refusal.Some? then Refused(s, refusal.value) else otherwise
  }

  // ---- tokens -------------------------------------------------------------------------

  function IssuedToken(s: Store, a: Id, tenant: Tenant, luck: Luck): (o: Outcome)
    ensures o.0 == s.(tokens := o.0.tokens)
  {
    if !Allowed(s, a, Operator) then Refused(s, Forbidden)
    else
      match TenantOf(s, a)
      case None => Refused(s, UnknownAdmin)
      case Some(own) =>
        if own != PLATFORM && tenant != "" && tenant != own then Refused(s, Forbidden)
        else
          var owner := if own != PLATFORM then own else tenant;
          Done(s.(tokens := s.tokens[luck.newId := Token(owner, a, false)]))
  }

  function RevokedToken(s: Store, a: Id, token: Id): (o: Outcome)
    ensures o.0 == s.(tokens := o.0.tokens)
  {
    if !Allowed(s, a, Operator) then Refused(s, Forbidden)
    else
      match TenantOf(s, a)
      case None => Refused(s, UnknownAdmin)
      case Some(own) =>
        if own != PLATFORM && (token !in s.tokens || s.tokens[token].tenant != own) then Refused(s, Forbidden)
        else if token !in s.tokens then Done(s)
        else Done(s.(tokens := s.tokens[token := s.tokens[token].(used := true)]))
  }

  // ---- devices ------------------------------------------------------------------------

  function CutTag(tag: string): string {
    if |tag| > MAX_TAG_LENGTH then tag[..MAX_TAG_LENGTH] else tag
  }

  /** The trimmed input, or its first 40 bytes if it is longer. */
  function TagOf(text: Text, input: string): (tag: string)
    ensures tag <= text.trim(input) && |tag| <= 40 && (|tag| == 40 || tag == text.trim(input))
  {
    CutTag(text.trim(input))
  }

  function WithTag(kept: seq<string>, tag: string): seq<string> {
    if tag == "" || tag in kept then kept else kept + [tag]
  }

  /** The tags kept, given those kept already: trimmed, not empty, cut, none twice, no more than
      the limit. */
  function CleanTags(text: Text, tags: seq<string>, kept: seq<string>): seq<string>
    decreases |tags|
  {
    if tags == [] || |kept| >= MAX_TAGS then kept
    else
      CleanTags(text, tags[1..], WithTag(kept, TagOf(text, tags[0])))
  }

  /** Some input before the i-th one becomes the tag. */
  predicate Occurs(text: Text, tags: seq<string>, tag: string, i: int)
    requires i <= |tags|
  {
    exists j | 0 <= j < i :: TagOf(text, tags[j]) == tag
  }

  /** The tag occurs before the other one does. */
  predicate OccursBefore(text: Text, tags: seq<string>, tag: string, other: string) {
    exists i | 0 <= i <= |tags| :: Occurs(text, tags, tag, i) && !Occurs(text, tags, other, i)
  }

  predicate Members(text: Text, tags: seq<string>, kept: seq<string>) {
    forall t | t in kept :: 0 < |t| <= MAX_TAG_LENGTH && Occurs(text, tags, t, |tags|)
  }

  predicate InOrder(text: Text, tags: seq<string>, kept: seq<string>) {
    forall a, b | 0 <= a < b < |kept| :: OccursBefore(text, tags, kept[a], kept[b])
  }

  /** The i-th input's tag is kept, or empty, or comes after all of a full list. */
  predicate Accounted(text: Text, tags: seq<string>, kept: seq<string>, i: nat)
    requires i < |tags|
  {
    var t := TagOf(text, tags[i]);
    t == "" || t in kept || (|kept| == MAX_TAGS && forall k | k in kept :: Occurs(text, tags, k, i))
  }

  /** The first distinct tags in order of first occurrence: none twice, none empty or too long,
      each from some input, and an input's tag is missing only behind a full list. */
  predicate FirstTags(text: Text, tags: seq<string>, kept: seq<string>) {
    && |kept| <= MAX_TAGS && NoRepeats(kept) && Members(text, tags, kept) && InOrder(text, tags, kept)
    && forall i | 0 <= i < |tags| :: Accounted(text, tags, kept, i)
  }

  lemma OccursLonger(text: Text, tags: seq<string>, more: seq<string>, tag: string, i: int)
    requires i <= |tags|
    ensures Occurs(text, tags + more, tag, i) == Occurs(text, tags, tag, i)
  {
    assert forall j | 0 <= j < i :: (tags + more)[j] == tags[j];
  }

  lemma OccursBeforeLonger(text: Text, tags: seq<string>, more: seq<string>, tag: string, other: string)
    requires OccursBefore(text, tags, tag, other)
    ensures OccursBefore(text, tags + more, tag, other)
  {
    var i :| 0 <= i <= |tags| && Occurs(text, tags, tag, i) && !Occurs(text, tags, other, i);
    OccursLonger(text, tags, more, tag, i);
    OccursLonger(text, tags, more, other, i);
  }

  /** What was kept stays in order when more inputs follow. */
  lemma KeptStays(text: Text, tags: seq<string>, more: seq<string>, kept: seq<string>)
    requires FirstTags(text, tags, kept)
    ensures forall t | t in kept :: Occurs(text, tags + more, t, |tags|)
    ensures Members(text, tags + more, kept) && InOrder(text, tags + more, kept)
  {
    forall t | t in kept ensures Occurs(text, tags + more, t, |tags|) && Occurs(text, tags + more, t, |tags + more|) {
      OccursLonger(text, tags, more, t, |tags|);
      var j :| 0 <= j < |tags| && TagOf(text, (tags + more)[j]) == t;
    }
    forall a, b | 0 <= a < b < |kept| ensures OccursBefore(text, tags + more, kept[a], kept[b]) {
      OccursBeforeLonger(text, tags, more, kept[a], kept[b]);
    }
  }

  lemma AccountedStays(text: Text, tags: seq<string>, more: seq<string>, kept: seq<string>, longer: seq<string>, i: nat)
    requires i < |tags| && Accounted(text, tags, kept, i)
    requires kept == longer || (kept < longer && |kept| < MAX_TAGS)
    ensures Accounted(text, tags + more, longer, i)
  {
    assert (tags + more)[i] == tags[i];
    forall k | k in kept ensures Occurs(text, tags + more, k, i) == Occurs(text, tags, k, i) {
      OccursLonger(text, tags, more, k, i);
    }
    assert forall t | t in kept :: t in longer;
    hide Occurs, TagOf;
  }

  /** A full list is final. */
  lemma FullStays(text: Text, tags: seq<string>, more: seq<string>, kept: seq<string>)
    requires FirstTags(text, tags, kept) && |kept| == MAX_TAGS
    ensures FirstTags(text, tags + more, kept)
  {
    var all := tags + more;
    KeptStays(text, tags, more, kept);
    forall i | 0 <= i < |all| ensures Accounted(text, all, kept, i) {
      if i < |tags| {
        AccountedStays(text, tags, more, kept, kept, i);
      } else {
        forall k | k in kept ensures Occurs(text, all, k, i) {
          var j :| 0 <= j < |tags| && TagOf(text, all[j]) == k;
        }
      }
    }
    hide Accounted, Occurs, Members, InOrder;
  }

  lemma NewTagInOrder(text: Text, tags: seq<string>, input: string, kept: seq<string>)
    requires FirstTags(text, tags, kept) && |kept| < MAX_TAGS
    requires TagOf(text, input) != "" && TagOf(text, input) !in kept
    ensures InOrder(text, tags + [input], kept + [TagOf(text, input)])
  {
    var all, t := tags + [input], TagOf(text, input);
    var longer := kept + [t];
    KeptStays(text, tags, [input], kept);
    assert forall i | 0 <= i < |tags| :: all[i] == tags[i] && Accounted(text, tags, kept, i);
    assert !Occurs(text, all, t, |tags|);
    forall a, b | 0 <= a < b < |longer| ensures OccursBefore(text, all, longer[a], longer[b]) {
      if b < |kept| {
        assert longer[a] == kept[a] && longer[b] == kept[b];
      } else {
        assert longer[a] in kept && Occurs(text, all, longer[a], |tags|);
      }
    }
  }

  /** One more input, as long as the list is not full. */
  lemma OneMoreTag(text: Text, tags: seq<string>, input: string, kept: seq<string>)
    requires FirstTags(text, tags, kept) && |kept| < MAX_TAGS
    ensures var t := TagOf(text, input);
            FirstTags(text, tags + [input], WithTag(kept, t))
  {
    var all, t := tags + [input], TagOf(text, input);
    var longer := WithTag(kept, t);
    KeptStays(text, tags, [input], kept);
    assert all[|tags|] == input;
    if longer != kept {
      NewTagInOrder(text, tags, input, kept);
      assert Occurs(text, all, t, |all|);
    }
    hide InOrder, Occurs;
    forall i | 0 <= i < |all| ensures Accounted(text, all, longer, i) {
      if i < |tags| {
        AccountedStays(text, tags, [input], kept, longer, i);
      }
    }
    hide Accounted;
  }

  lemma CleanTagsStep(text: Text, tags: seq<string>, kept: seq<string>)
    ensures CleanTags(text, tags, kept)
         == if tags == [] || |kept| >= MAX_TAGS then kept
            else CleanTags(text, tags[1..], WithTag(kept, TagOf(text, tags[0])))
  {
  }

  lemma HeadMoved<T>(xs: seq<T>, ys: seq<T>)
    ensures ys != [] ==> xs + [ys[0]] + ys[1..] == xs + ys
    ensures xs + [] == xs
  {
  }

  lemma {:induction false} CleanTagsAreFirst(text: Text, done: seq<string>, tags: seq<string>, kept: seq<string>)
    requires FirstTags(text, done, kept)
    ensures FirstTags(text, done + tags, CleanTags(text, tags, kept))
    decreases |tags|
  {
    assert |kept| <= MAX_TAGS;
    hide FirstTags, TagOf, WithTag;
    CleanTagsStep(text, tags, kept);
    HeadMoved(done, tags);
    hide CleanTags;
    if |kept| == MAX_TAGS {
      FullStays(text, done, tags, kept);
    } else if tags != [] {
      OneMoreTag(text, done, tags[0], kept);
      CleanTagsAreFirst(text, done + [tags[0]], tags[1..], WithTag(kept, TagOf(text, tags[0])));
    }
  }

  function Tagged(s: Store, env: Env, a: Id, d: Id, tags: seq<string>): (o: Outcome)
    ensures o.0 == s.(devices := o.0.devices)
  {
    if !Allowed(s, a, Operator) then Refused(s, Forbidden)
    else
      var tagged :=
        if d !in s.devices then s
        else s.(devices := s.devices[d := s.devices[d].(tags := CleanTags(env.text, tags, []))]);
      Unless(DeviceGate(s, a, d), s, Done(tagged))
  }

  function Queued(s: Store, d: Id, kind: Kind, issuer: Id): Store {
    s.(commands := s.commands[d := CommandsOf(s, d) + [Cmd(kind, issuer)]])
  }

  /** The command plane stands between the guards and the queue for the types routed through it. */
  predicate Passes(kind: Kind, luck: Luck) {
    !PlaneRouted(kind) || luck.dispatches
  }

  function InScope(kind: Kind, luck: Luck): bool {
    ScopeExempt(kind) || luck.scopeAllows
  }

  function Shown(s: Store, d: Id, kind: Kind): (shown: Store)
    ensures shown == s.(devices := shown.devices)
  {
    if Reflected(kind).Some? && d in s.devices
    then s.(devices := s.devices[d := s.devices[d].(status := Reflected(kind).value)])
    else s
  }

  function Commanded(s: Store, a: Id, d: Id, kind: Kind, luck: Luck): (o: Outcome)
    ensures o.0 == s.(commands := o.0.commands, devices := o.0.devices)
  {
    if !Allowed(s, a, MinRole(kind)) then Refused(s, Forbidden)
    else
      Unless(DeviceGate(s, a, d), s,
        if !InScope(kind, luck) then Refused(s, OutOfScope)
        else if !Passes(kind, luck) then Refused(s, PlaneRefused)
        else Done(Shown(Queued(s, d, kind, a), d, kind)))
  }

  function FileCollected(s: Store, env: Env, a: Id, d: Id, path: string, luck: Luck): (o: Outcome)
    ensures o.0 == s.(commands := o.0.commands)
  {
    if !Allowed(s, a, MinRole(CollectFile)) then Refused(s, Forbidden)
    else if env.text.trim(path) == "" then Refused(s, InvalidInput)
    else Commanded(s, a, d, CollectFile, luck)
  }

  function Erased(s: Store, a: Id, d: Id, luck: Luck): (o: Outcome)
    ensures o.0 == s.(events := o.0.events, commands := o.0.commands, certs := o.0.certs)
  {
    if !Allowed(s, a, Administrator) then Refused(s, Forbidden)
    else
      Unless(DeviceGate(s, a, d), s,
        if !luck.scopeAllows then Refused(s, OutOfScope)
        else Done(CertsRevoked(s.(
          events := map e | e in s.events && s.events[e].device != d :: s.events[e],
          commands := s.commands - {d}), d)))
  }

  function CertsRevoked(s: Store, d: Id): Store {
    s.(certs := map c | c in s.certs :: if s.certs[c].device == d then s.certs[c].(revoked := true) else s.certs[c])
  }

  function Revoked(s: Store, a: Id, d: Id, luck: Luck): (o: Outcome)
    ensures o.0 == s.(certs := o.0.certs)
  {
    if !Allowed(s, a, Operator) then Refused(s, Forbidden)
    else
      Unless(DeviceGate(s, a, d), s,
        if !luck.scopeAllows then Refused(s, OutOfScope) else Done(CertsRevoked(s, d)))
  }

  // ---- wipes under dual control -------------------------------------------------------

  function WipeRequested(s: Store, env: Env, a: Id, d: Id, reason: string, luck: Luck): (o: Outcome)
    ensures o.0 == s.(wipes := o.0.wipes)
  {
    if !Allowed(s, a, MinRole(Wipe)) then Refused(s, Forbidden)
    else if env.text.trim(d) == "" || |reason| > MAX_REASON then Refused(s, InvalidInput)
    else
      Unless(DeviceGate(s, a, d), s,
        if !InScope(Wipe, luck) then Refused(s, OutOfScope) else Done(s.(wipes := s.wipes[d := a])))
  }

  /** The request is claimed before the command is queued: if the plane refuses, it is gone. */
  function WipeApproved(s: Store, a: Id, d: Id, luck: Luck): (o: Outcome)
    ensures o.0 == s.(wipes := o.0.wipes, commands := o.0.commands)
  {
    if !Allowed(s, a, MinRole(Wipe)) then Refused(s, Forbidden)
    else
      Unless(DeviceGate(s, a, d), s,
        if !InScope(Wipe, luck) then Refused(s, OutOfScope)
        else if d !in s.wipes then Refused(s, if a == "" then Forbidden else InvalidInput)
        else if s.wipes[d] == a then Refused(s, Forbidden)
        else
          var claimed := s.(wipes := s.wipes - {d});
          if !Passes(Wipe, luck) then Refused(claimed, PlaneRefused) else Done(Queued(claimed, d, Wipe, a)))
  }

  function WipeCancelled(s: Store, a: Id, d: Id): (o: Outcome)
    ensures o.0 == s.(wipes := o.0.wipes)
  {
    if !Allowed(s, a, Administrator) then Refused(s, Forbidden)
    else Unless(DeviceGate(s, a, d), s, Done(s.(wipes := s.wipes - {d})))
  }

  // ---- event triage -------------------------------------------------------------------

  function TriageOf(s: Store, e: Id): Triage {
    if e in s.triage then s.triage[e] else Triage("", "", "", "", "")
  }

  /** The tenant of the event's record: the event's, or that of the record for a deleted event. */
  function TriageTenant(s: Store, e: Id): Tenant {
    if e in s.events then Canonical(s.events[e].tenant) else Canonical(TriageOf(s, e).tenant)
  }

  function CaseUpdated(s: Store, env: Env, a: Id, e: Id, assignee: string, note: string): (o: Outcome)
    ensures o.0 == s.(triage := o.0.triage)
  {
    if !Allowed(s, a, Operator) then Refused(s, Forbidden)
    else if e == "" || |assignee| > MAX_ASSIGNEE || |note| > MAX_NOTE then Refused(s, InvalidInput)
    else
      var record := TriageOf(s, e).(
        assignee := env.text.trim(assignee), note := env.text.trim(note), author := a, tenant := TriageTenant(s, e));
      Unless(EventGate(s, a, e), s, Done(s.(triage := s.triage[e := record])))
  }

  function EventAcked(s: Store, a: Id, e: Id, status: string): (o: Outcome)
    ensures o.0 == s.(triage := o.0.triage)
  {
    if !Allowed(s, a, Operator) then Refused(s, Forbidden)
    else if (status != "ACKNOWLEDGED" && status != "RESOLVED") || e == "" then Refused(s, InvalidInput)
    else
      var record := TriageOf(s, e).(status := status, author := a, tenant := TriageTenant(s, e));
      Unless(EventGate(s, a, e), s, Done(s.(triage := s.triage[e := record])))
  }

  // ---- policies -----------------------------------------------------------------------

  /** The owner of a policy this admin creates. */
  function PolicyFor(env: Env, own: Tenant, requested: string): Result<Tenant, Error> {
    if own == PLATFORM then
      var t := env.text.trim(requested);
      if t == "" then Ok(PLATFORM)
      else
        match Normalize(env.text, t)
        case None => Err(InvalidInput)
        case Some(n) => Ok(n)
    else if requested != "" && requested != own then Err(Forbidden)
    else Ok(own)
  }

  function PolicyCreated(s: Store, env: Env, a: Id, version: string, tenant: string, luck: Luck): (o: Outcome)
    ensures o.0 == s.(policies := o.0.policies)
  {
    if !Allowed(s, a, Administrator) then Refused(s, Forbidden)
    else
      match TenantOf(s, a)
      case None => Refused(s, UnknownAdmin)
      case Some(own) =>
        match PolicyFor(env, own, tenant)
        case Err(e) => Refused(s, e)
        case Ok(owner) => Done(s.(policies := s.policies[luck.newId := Policy(owner, version, [])]))
  }

  function Published(s: Store, env: Env, devices: multiset<Id>): Store {
    if env.publishes then s.(published := s.published + devices) else s
  }

  function PolicyAssigned(s: Store, env: Env, a: Id, d: Id, p: Id, luck: Luck): (o: Outcome)
    ensures o.0 == s.(devices := o.0.devices, published := o.0.published)
  {
    if !Allowed(s, a, Administrator) then Refused(s, Forbidden)
    else
      Unless(DeviceGate(s, a, d), s,
        match PolicyOwner(s, a, p, false)
        case Err(e) => Refused(s, e)
        case Ok(owner) =>
          if !FitsDevice(owner, DeviceTenant(s, d)) then Refused(s, Forbidden)
          else if !luck.scopeAllows then Refused(s, OutOfScope)
          else if d !in s.devices then Refused(s, Forbidden)
          else
            var device := s.devices[d].(policy := Some(p), version := s.policies[p].version);
            Done(Published(s.(devices := s.devices[d := device]), env, multiset{d})))
  }

  /** The days given, without negative ones, or every day if none is left. */
  function KeptDays(days: seq<int>): seq<int>
    decreases |days|
  {
    if days == [] then []
    else if days[0] >= 0 then [days[0]] + KeptDays(days[1..])
    else KeptDays(days[1..])
  }

  function ActiveDays(days: seq<int>): seq<int> {
    if KeptDays(days) == [] then EVERY_DAY else KeptDays(days)
  }

  predicate ValidRule(rule: Rule) {
    !rule.kind.OtherRule? && (rule.kind.TimeBlock? ==> rule.start != "" && rule.end != "")
  }

  /** The rule appended and the version raised, on the policy and on every device that has it. */
  function Bumped(s: Store, p: Id, rule: Rule, version: string): Store
    requires p in s.policies
  {
    s.(policies := s.policies[p := Policy(s.policies[p].tenant, version,
                                          s.policies[p].rules + [rule.(days := ActiveDays(rule.days))])],
       devices := map d | d in s.devices ::
         if s.devices[d].policy == Some(p) then s.devices[d].(version := version) else s.devices[d])
  }

  /** The devices woken by a change of the policy. */
  function Audience(s: Store, p: Id, owner: Tenant): set<Id> {
    set d | d in s.devices && s.devices[d].policy == Some(p) && FitsDevice(owner, s.devices[d].tenant)
  }

  function RuleAdded(s: Store, env: Env, a: Id, p: Id, rule: Rule, luck: Luck): (o: Outcome)
    ensures o.0 == s.(policies := o.0.policies, devices := o.0.devices, published := o.0.published)
  {
    if !Allowed(s, a, Administrator) then Refused(s, Forbidden)
    else if !ValidRule(rule) then Refused(s, InvalidRule)
    else
      match PolicyOwner(s, a, p, true)
      case Err(e) => Refused(s, e)
      case Ok(owner) => Done(Published(Bumped(s, p, rule, luck.newVersion), env, multiset(Audience(s, p, owner))))
  }

  // ---- admins -------------------------------------------------------------------------

  /** The tenant of an admin this admin creates. */
  function AdminFor(env: Env, own: Tenant, requested: string): Result<Tenant, Error> {
    var t := env.text.trim(requested);
    if own != PLATFORM then
      if t != "" && t != own && Normalize(env.text, t) != Some(own) then Err(Forbidden) else Ok(own)
    else if t == "" then Ok(PLATFORM)
    else
      match Normalize(env.text, t)
      case None => Err(InvalidInput)
      case Some(n) => Ok(n)
  }

  function AdminCreated(s: Store, env: Env, a: Id, email: string, password: string, role: Role, tenant: string,
      luck: Luck): (o: Outcome)
    ensures o.0 == s.(admins := o.0.admins)
  {
    if !Allowed(s, a, Administrator) then Refused(s, Forbidden)
    else if email == "" || |password| < MIN_PASSWORD || role.Other? then Refused(s, InvalidInput)
    else
      match TenantOf(s, a)
      case None => Refused(s, UnknownAdmin)
      case Some(own) =>
        match AdminFor(env, own, tenant)
        case Err(e) => Refused(s, e)
        case Ok(t) => Done(s.(admins := s.admins[luck.newId := Admin(role, t, true)]))
  }

  /** The guard applies to admins acting on themselves only. */
  predicate LeavesNoAdmin(s: Store, a: Id, target: Id, scope: Tenant) {
    a == target && !OtherAdmin(s, a, scope)
  }

  function RoleSet(s: Store, a: Id, target: Id, role: Role): (o: Outcome)
    ensures o.0 == s.(admins := o.0.admins)
  {
    if !Allowed(s, a, Administrator) then Refused(s, Forbidden)
    else if role.Other? then Refused(s, InvalidInput)
    else
      match AdminTarget(s, a, target)
      case Err(e) => Refused(s, e)
      case Ok(scope) =>
        if role != Administrator && LeavesNoAdmin(s, a, target, scope) then Refused(s, LastAdmin)
        else if target !in s.admins then Done(s)
        else Done(s.(admins := s.admins[target := s.admins[target].(role := role)]))
  }

  function Deactivated(s: Store, a: Id, target: Id): (o: Outcome)
    ensures o.0 == s.(admins := o.0.admins)
  {
    if !Allowed(s, a, Administrator) then Refused(s, Forbidden)
    else
      match AdminTarget(s, a, target)
      case Err(e) => Refused(s, e)
      case Ok(scope) =>
        if LeavesNoAdmin(s, a, target, scope) then Refused(s, LastAdmin)
        else if target !in s.admins then Done(s)
        else Done(s.(admins := s.admins[target := s.admins[target].(active := false)]))
  }

  // ---- the service --------------------------------------------------------------------

  lemma OneMore(woken: set<Id>, d: Id)
    requires d !in woken
    ensures multiset(woken + {d}) == multiset(woken) + multiset{d}
  {
  }

  /** The same operations as they run: the guards one after the other, then the writes. */
  class Service {
    var store: Store
    const env: Env

    constructor (store: Store, env: Env)
      ensures this.store == store && this.env == env
    {
      this.store, this.env := store, env;
    }

    method IssueEnrollmentToken(a: Id, tenant: Tenant, luck: Luck) returns (refusal: Option<Error>)
      modifies this`store
      ensures (store, refusal) == IssuedToken(old(store), a, tenant, luck)
    {
      if !Allowed(store, a, Operator) { return Some(Forbidden); }
      var caller := TenantOf(store, a);
      if caller.None? { return Some(UnknownAdmin); }
      var owner := tenant;
      if caller.value != PLATFORM {
        if owner != "" && owner != caller.value { return Some(Forbidden); }
        owner := caller.value;
      }
      store := store.(tokens := store.tokens[luck.newId := Token(owner, a, false)]);
      return None;
    }

    method RevokeEnrollmentToken(a: Id, token: Id) returns (refusal: Option<Error>)
      modifies this`store
      ensures (store, refusal) == RevokedToken(old(store), a, token)
    {
      if !Allowed(store, a, Operator) { return Some(Forbidden); }
      var caller := TenantOf(store, a);
      if caller.None? { return Some(UnknownAdmin); }
      if caller.value != PLATFORM {
        if token !in store.tokens || store.tokens[token].tenant != caller.value { return Some(Forbidden); }
      }
      if token in store.tokens && !store.tokens[token].used {
        store := store.(tokens := store.tokens[token := store.tokens[token].(used := true)]);
      } else if token in store.tokens {
        assert store.tokens[token := store.tokens[token].(used := true)] == store.tokens;
      }
      return None;
    }

    method NormalizeTags(tags: seq<string>) returns (kept: seq<string>)
      ensures kept == CleanTags(env.text, tags, []) && FirstTags(env.text, tags, kept)
    {
      kept := [];
      assert tags[0..] == tags;
      CleanTagsAreFirst(env.text, [], tags, []);
      assert [] + tags == tags;
      for i := 0 to |tags|
        invariant CleanTags(env.text, tags, []) == CleanTags(env.text, tags[i..], kept) && |kept| < MAX_TAGS
      {
        assert tags[i..][1..] == tags[i + 1..];
        var tag := env.text.trim(tags[i]);
        if tag == "" { continue; }
        tag := CutTag(tag);
        if tag in kept { continue; }
        kept := kept + [tag];
        if |kept| >= MAX_TAGS { break; }
      }
    }

    method SetDeviceTags(a: Id, d: Id, tags: seq<string>) returns (refusal: Option<Error>)
      modifies this`store
      ensures (store, refusal) == Tagged(old(store), env, a, d, tags)
    {
      if !Allowed(store, a, Operator) { return Some(Forbidden); }
      refusal := DeviceGate(store, a, d);
      if refusal.Some? { return; }
      var clean := NormalizeTags(tags);
      if d in store.devices {
        store := store.(devices := store.devices[d := store.devices[d].(tags := clean)]);
      }
    }

    /** Enqueue, through the command plane for the types routed that way. */
    method Enqueue(a: Id, d: Id, kind: Kind, luck: Luck) returns (refusal: Option<Error>)
      modifies this`store
      ensures (store, refusal)
           == if Passes(kind, luck) then Done(Queued(old(store), d, kind, a)) else Refused(old(store), PlaneRefused)
    {
      if PlaneRouted(kind) && !luck.dispatches { return Some(PlaneRefused); }
      store := store.(commands := store.commands[d := CommandsOf(store, d) + [Cmd(kind, a)]]);
      return None;
    }

    method Command(a: Id, d: Id, kind: Kind, luck: Luck) returns (refusal: Option<Error>)
      modifies this`store
      ensures (store, refusal) == Commanded(old(store), a, d, kind, luck)
    {
      if !Allowed(store, a, MinRole(kind)) { return Some(Forbidden); }
      refusal := DeviceGate(store, a, d);
      if refusal.Some? { return; }
      if !ScopeExempt(kind) && !luck.scopeAllows { return Some(OutOfScope); }
      refusal := Enqueue(a, d, kind, luck);
      if refusal.Some? { return; }
      var status := Reflected(kind);
      if status.Some? && d in store.devices {
        store := store.(devices := store.devices[d := store.devices[d].(status := status.value)]);
      }
    }

    method CollectFromDevice(a: Id, d: Id, path: string, luck: Luck) returns (refusal: Option<Error>)
      modifies this`store
      ensures (store, refusal) == FileCollected(old(store), env, a, d, path, luck)
    {
      if !Allowed(store, a, MinRole(CollectFile)) { return Some(Forbidden); }
      if env.text.trim(path) == "" { return Some(InvalidInput); }
      refusal := DeviceGate(store, a, d);
      if refusal.Some? { return; }
      if !luck.scopeAllows { return Some(OutOfScope); }
      refusal := Enqueue(a, d, CollectFile, luck);
    }

    method EraseDevice(a: Id, d: Id, luck: Luck) returns (refusal: Option<Error>)
      modifies this`store
      ensures (store, refusal) == Erased(old(store), a, d, luck)
    {
      if !Allowed(store, a, Administrator) { return Some(Forbidden); }
      refusal := DeviceGate(store, a, d);
      if refusal.Some? { return; }
      if !luck.scopeAllows { return Some(OutOfScope); }
      store := store.(events := map e | e in store.events && store.events[e].device != d :: store.events[e]);
      store := store.(commands := store.commands - {d});
      store := CertsRevoked(store, d);
    }

    method RevokeDevice(a: Id, d: Id, luck: Luck) returns (refusal: Option<Error>)
      modifies this`store
      ensures (store, refusal) == Revoked(old(store), a, d, luck)
    {
      if !Allowed(store, a, Operator) { return Some(Forbidden); }
      refusal := DeviceGate(store, a, d);
      if refusal.Some? { return; }
      if !luck.scopeAllows { return Some(OutOfScope); }
      store := CertsRevoked(store, d);
    }

    method RequestWipe(a: Id, d: Id, reason: string, luck: Luck) returns (refusal: Option<Error>)
      modifies this`store
      ensures (store, refusal) == WipeRequested(old(store), env, a, d, reason, luck)
    {
      if !Allowed(store, a, MinRole(Wipe)) { return Some(Forbidden); }
      if env.text.trim(d) == "" { return Some(InvalidInput); }
      if |reason| > MAX_REASON { return Some(InvalidInput); }
      refusal := DeviceGate(store, a, d);
      if refusal.Some? { return; }
      if !luck.scopeAllows { return Some(OutOfScope); }
      store := store.(wipes := store.wipes[d := a]);
    }

    method ApproveWipe(a: Id, d: Id, luck: Luck) returns (refusal: Option<Error>)
      modifies this`store
      ensures (store, refusal) == WipeApproved(old(store), a, d, luck)
    {
      if !Allowed(store, a, MinRole(Wipe)) { return Some(Forbidden); }
      refusal := DeviceGate(store, a, d);
      if refusal.Some? { return; }
      if !luck.scopeAllows { return Some(OutOfScope); }
      if d !in store.wipes { return Some(if a == "" then Forbidden else InvalidInput); }
      if store.wipes[d] == a { return Some(Forbidden); }
      store := store.(wipes := store.wipes - {d});
      refusal := Enqueue(a, d, Wipe, luck);
    }

    method CancelWipe(a: Id, d: Id) returns (refusal: Option<Error>)
      modifies this`store
      ensures (store, refusal) == WipeCancelled(old(store), a, d)
    {
      if !Allowed(store, a, Administrator) { return Some(Forbidden); }
      refusal := DeviceGate(store, a, d);
      if refusal.Some? { return; }
      store := store.(wipes := store.wipes - {d});
    }

    method UpdateEventCase(a: Id, e: Id, assignee: string, note: string) returns (refusal: Option<Error>)
      modifies this`store
      ensures (store, refusal) == CaseUpdated(old(store), env, a, e, assignee, note)
    {
      if !Allowed(store, a, Operator) { return Some(Forbidden); }
      if e == "" || |assignee| > MAX_ASSIGNEE || |note| > MAX_NOTE { return Some(InvalidInput); }
      refusal := EventGate(store, a, e);
      if refusal.Some? { return; }
      var record := TriageOf(store, e);
      record := record.(assignee := env.text.trim(assignee), note := env.text.trim(note), author := a);
      record := record.(tenant := TriageTenant(store, e));
      store := store.(triage := store.triage[e := record]);
    }

    method AckEvent(a: Id, e: Id, status: string) returns (refusal: Option<Error>)
      modifies this`store
      ensures (store, refusal) == EventAcked(old(store), a, e, status)
    {
      if !Allowed(store, a, Operator) { return Some(Forbidden); }
      if status != "ACKNOWLEDGED" && status != "RESOLVED" { return Some(InvalidInput); }
      if e == "" { return Some(InvalidInput); }
      refusal := EventGate(store, a, e);
      if refusal.Some? { return; }
      var record := TriageOf(store, e).(status := status, author := a);
      record := record.(tenant := TriageTenant(store, e));
      store := store.(triage := store.triage[e := record]);
    }

    method CreatePolicy(a: Id, version: string, tenant: string, luck: Luck) returns (refusal: Option<Error>)
      modifies this`store
      ensures (store, refusal) == PolicyCreated(old(store), env, a, version, tenant, luck)
    {
      if !Allowed(store, a, Administrator) { return Some(Forbidden); }
      var caller := TenantOf(store, a);
      if caller.None? { return Some(UnknownAdmin); }
      var owner := caller.value;
      if owner == PLATFORM {
        var t := env.text.trim(tenant);
        if t != "" {
          var n := Normalize(env.text, t);
          if n.None? { return Some(InvalidInput); }
          owner := n.value;
        }
      } else if tenant != "" && tenant != owner {
        return Some(Forbidden);
      }
      store := store.(policies := store.policies[luck.newId := Policy(owner, version, [])]);
      return None;
    }

    method AssignPolicy(a: Id, d: Id, p: Id, luck: Luck) returns (refusal: Option<Error>)
      modifies this`store
      ensures (store, refusal) == PolicyAssigned(old(store), env, a, d, p, luck)
    {
      if !Allowed(store, a, Administrator) { return Some(Forbidden); }
      refusal := DeviceGate(store, a, d);
      if refusal.Some? { return; }
      var owner := PolicyOwner(store, a, p, false);
      if owner.Err? { return Some(owner.error); }
      if !FitsDevice(owner.value, DeviceTenant(store, d)) { return Some(Forbidden); }
      if !luck.scopeAllows { return Some(OutOfScope); }
      if d !in store.devices { return Some(Forbidden); }
      var device := store.devices[d].(policy := Some(p), version := store.policies[p].version);
      store := store.(devices := store.devices[d := device]);
      if env.publishes {
        store := store.(published := store.published + multiset{d});
      }
    }

    method AddPolicyRule(a: Id, p: Id, rule: Rule, luck: Luck) returns (refusal: Option<Error>)
      modifies this`store
      ensures (store, refusal) == RuleAdded(old(store), env, a, p, rule, luck)
    {
      if !Allowed(store, a, Administrator) { return Some(Forbidden); }
      if !ValidRule(rule) { return Some(InvalidRule); }
      var owner := PolicyOwner(store, a, p, true);
      if owner.Err? { return Some(owner.error); }
      store := Bumped(store, p, rule, luck.newVersion);
      assert Audience(store, p, owner.value) == Audience(old(store), p, owner.value);
      if env.publishes {
        WakeAudience(p, owner.value);
      }
      return None;
    }

    /** Wakes the policy's devices one by one, in whatever order they are listed. */
    method WakeAudience(p: Id, owner: Tenant)
      modifies this`store
      ensures store == old(store).(published := old(store).published + multiset(Audience(old(store), p, owner)))
    {
      ghost var before := store;
      ghost var audience := Audience(store, p, owner);
      var devices := set d | d in store.devices && store.devices[d].policy == Some(p);
      var rest := devices;
      assert audience <= devices;
      assert audience - rest == {};
      while rest != {}
        invariant rest <= devices
        invariant store == before.(published := before.published + multiset(audience - rest))
        decreases |rest|
      {
        var d :| d in rest;
        ghost var woken := audience - rest;
        rest := rest - {d};
        assert d in audience <==> FitsDevice(owner, before.devices[d].tenant);
        if owner != PLATFORM && !FitsDevice(owner, DeviceTenant(store, d)) {
          assert audience - rest == woken;
          continue;
        }
        OneMore(woken, d);
        assert audience - rest == woken + {d};
        store := store.(published := store.published + multiset{d});
      }
      assert audience - rest == audience;
    }

    method CreateAdmin(a: Id, email: string, password: string, role: Role, tenant: string, luck: Luck)
      returns (refusal: Option<Error>)
      modifies this`store
      ensures (store, refusal) == AdminCreated(old(store), env, a, email, password, role, tenant, luck)
    {
      if !Allowed(store, a, Administrator) { return Some(Forbidden); }
      if email == "" || |password| < MIN_PASSWORD || role.Other? { return Some(InvalidInput); }
      var creator := TenantOf(store, a);
      if creator.None? { return Some(UnknownAdmin); }
      var effective := env.text.trim(tenant);
      if creator.value != PLATFORM {
        if effective != "" {
          var n := Normalize(env.text, effective);
          if effective != creator.value && (n.None? || n.value != creator.value) { return Some(Forbidden); }
        }
        effective := creator.value;
      } else if effective != "" {
        var n := Normalize(env.text, effective);
        if n.None? { return Some(InvalidInput); }
        effective := n.value;
      }
      store := store.(admins := store.admins[luck.newId := Admin(role, effective, true)]);
      return None;
    }

    method GuardLastAdmin(a: Id, target: Id, scope: Tenant) returns (refusal: Option<Error>)
      ensures refusal == if LeavesNoAdmin(store, a, target, scope) then Some(LastAdmin) else None
    {
      if a != target { return None; }
      var other := HasOtherActiveAdmin(store, a, scope);
      return if other then None else Some(LastAdmin);
    }

    method SetAdminRole(a: Id, target: Id, role: Role) returns (refusal: Option<Error>)
      modifies this`store
      ensures (store, refusal) == RoleSet(old(store), a, target, role)
    {
      if !Allowed(store, a, Administrator) { return Some(Forbidden); }
      if role.Other? { return Some(InvalidInput); }
      var scope := AdminTarget(store, a, target);
      if scope.Err? { return Some(scope.error); }
      if role != Administrator {
        refusal := GuardLastAdmin(a, target, scope.value);
        if refusal.Some? { return; }
      }
      if target in store.admins {
        store := store.(admins := store.admins[target := store.admins[target].(role := role)]);
      }
      return None;
    }

    method DeactivateAdmin(a: Id, target: Id) returns (refusal: Option<Error>)
      modifies this`store
      ensures (store, refusal) == Deactivated(old(store), a, target)
    {
      if !Allowed(store, a, Administrator) { return Some(Forbidden); }
      var scope := AdminTarget(store, a, target);
      if scope.Err? { return Some(scope.error); }
      refusal := GuardLastAdmin(a, target, scope.value);
      if refusal.Some? { return; }
      if target in store.admins {
        store := store.(admins := store.admins[target := store.admins[target].(active := false)]);
      }
    }
  }
}
