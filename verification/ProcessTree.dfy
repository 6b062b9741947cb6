/** The process-tree walks behind enforcement, and the tick that kills forbidden trees. */
module ProcessTree {
  import opened Results
  import E = PolicyEngine

  type Pid = nat

  datatype Process = Process(pid: Pid, ppid: Pid, name: string, path: string)

  const MAX_CHAIN_DEPTH := 16

  // ---- the tree -----------------------------------------------------------------------

  /** Some entry lists parent as the (non-zero) parent of child. */
  predicate Edge(procs: seq<Process>, parent: Pid, child: Pid) {
    parent != 0 && exists p | p in procs :: p.ppid == parent && p.pid == child
  }

  /** There is a walk of n edges from root to x. */
  ghost predicate Walk(procs: seq<Process>, root: Pid, x: Pid, n: nat)
    decreases n
  {
    if n == 0 then x == root
    else exists y :: Walk(procs, root, y, n - 1) && Edge(procs, y, x)
  }

  ghost predicate Reachable(procs: seq<Process>, root: Pid, x: Pid) {
    exists n: nat :: Walk(procs, root, x, n)
  }

  /** The children of a process in list order. */
  function ChildrenOf(procs: seq<Process>, parent: Pid): seq<Pid> {
    if procs == [] then []
    else
      var last := procs[|procs| - 1];
      ChildrenOf(procs[..|procs| - 1], parent) + if last.ppid == parent && parent != 0 then [last.pid] else []
  }

  lemma {:induction false} ChildrenAreEdges(procs: seq<Process>, parent: Pid)
    ensures forall c :: c in ChildrenOf(procs, parent) <==> Edge(procs, parent, c)
  {
    if procs != [] {
      var front, last := procs[..|procs| - 1], procs[|procs| - 1];
      ChildrenAreEdges(front, parent);
      assert procs == front + [last];
    }
  }

  method IndexChildren(procs: seq<Process>) returns (m: map<Pid, seq<Pid>>)
    ensures forall a: Pid :: (if a in m then m[a] else []) == ChildrenOf(procs, a)
  {
    m := map[];
    for i := 0 to |procs|
      invariant forall a: Pid :: (if a in m then m[a] else []) == ChildrenOf(procs[..i], a)
    {
      assert procs[..i + 1][..i] == procs[..i];
      var p := procs[i];
      if p.ppid != 0 {
        m := m[p.ppid := (if p.ppid in m then m[p.ppid] else []) + [p.pid]];
      }
    }
    assert procs[..|procs|] == procs;
  }

  // ---- breadth-first search -----------------------------------------------------------

  /** The visiting order so far with the depth of each visit; the first k visits are expanded. */
  ghost predicate Search(procs: seq<Process>, root: Pid, order: seq<Pid>, depth: seq<nat>, k: nat) {
    && |depth| == |order| > 0 && order[0] == root && depth[0] == 0
    && NoRepeats(order)
    && (forall i, j | 0 <= i < j < |depth| :: depth[i] <= depth[j])
    && (forall i | 0 <= i < |order| :: Walk(procs, root, order[i], depth[i]))
    && k <= |order|
    && (forall i, c | 0 <= i < k && Edge(procs, order[i], c) :: Found(order, depth, c, depth[i] + 1))
  }

  /** c has been visited, at a depth of at most d. */
  ghost predicate Found(order: seq<Pid>, depth: seq<nat>, c: Pid, d: nat)
    requires |depth| == |order|
  {
    exists j | 0 <= j < |order| :: order[j] == c && depth[j] <= d
  }

  lemma VisitChild(
    procs: seq<Process>, root: Pid, order: seq<Pid>, depth: seq<nat>, k: nat, c: Pid)
    requires Search(procs, root, order, depth, k) && k < |order|
    requires depth[|depth| - 1] <= depth[k] + 1 && Edge(procs, order[k], c) && c !in order
    ensures Search(procs, root, order + [c], depth + [depth[k] + 1], k)
    ensures Found(order + [c], depth + [depth[k] + 1], c, depth[k] + 1)
    ensures forall x, d | Found(order, depth, x, d) :: Found(order + [c], depth + [depth[k] + 1], x, d)
  {
    var more, deeper := order + [c], depth + [depth[k] + 1];
    assert Walk(procs, root, c, depth[k] + 1);
    assert more[|order|] == c && deeper[|order|] == depth[k] + 1;
    forall x, d | Found(order, depth, x, d) ensures Found(more, deeper, x, d) {
      var j :| 0 <= j < |order| && order[j] == x && depth[j] <= d;
      assert more[j] == x && deeper[j] <= d;
    }
    forall i, e | 0 <= i < k && Edge(procs, more[i], e) ensures Found(more, deeper, e, deeper[i] + 1) {
      assert Found(order, depth, e, depth[i] + 1);
    }
  }

  /** When every visit is expanded, depths are shortest distances. */
  lemma {:induction false} DepthsShortest(
    procs: seq<Process>, root: Pid, order: seq<Pid>, depth: seq<nat>, x: Pid, n: nat)
    requires Search(procs, root, order, depth, |order|) && Walk(procs, root, x, n)
    ensures Found(order, depth, x, n)
    decreases n
  {
    if n == 0 {
      assert order[0] == x;
    } else {
      var y :| Walk(procs, root, y, n - 1) && Edge(procs, y, x);
      DepthsShortest(procs, root, order, depth, y, n - 1);
      var j :| 0 <= j < |order| && order[j] == y && depth[j] <= n - 1;
      assert Found(order, depth, x, depth[j] + 1);
    }
  }

  function Pids(procs: seq<Process>): set<Pid> {
    set p | p in procs :: p.pid
  }

  /** Any walk to a later process is at least as long as some walk to an earlier one. */
  ghost predicate NearestFirst(procs: seq<Process>, root: Pid, out: seq<Pid>) {
    forall i, j, n: nat | 0 <= i < j < |out| && Walk(procs, root, out[j], n) :: WithinSteps(procs, root, out[i], n)
  }

  ghost predicate WithinSteps(procs: seq<Process>, root: Pid, x: Pid, n: nat) {
    exists m: nat :: m <= n && Walk(procs, root, x, m)
  }

  /** Whatever is within reach, other than root itself, once each, nearest first. */
  ghost predicate IsDescendantList(procs: seq<Process>, root: Pid, out: seq<Pid>) {
    && NoRepeats(out)
    && (forall x :: x in out <==> x != root && Reachable(procs, root, x))
    && NearestFirst(procs, root, out)
  }

  lemma VisitedIffReachable(procs: seq<Process>, root: Pid, order: seq<Pid>, depth: seq<nat>, x: Pid)
    requires Search(procs, root, order, depth, |order|)
    ensures x in order[1..] <==> x != root && Reachable(procs, root, x)
  {
    var out := order[1..];
    if x in out {
      var i :| 0 <= i < |out| && out[i] == x;
      assert order[i + 1] == x && Walk(procs, root, x, depth[i + 1]);
    }
    if x != root && Reachable(procs, root, x) {
      var n: nat :| Walk(procs, root, x, n);
      DepthsShortest(procs, root, order, depth, x, n);
      var j :| 0 <= j < |order| && order[j] == x && depth[j] <= n;
      assert out[j - 1] == x;
    }
  }

  lemma NearerFirst(procs: seq<Process>, root: Pid, order: seq<Pid>, depth: seq<nat>, i: nat, j: nat, n: nat)
    requires Search(procs, root, order, depth, |order|)
    requires i < j < |order| && Walk(procs, root, order[j], n)
    ensures WithinSteps(procs, root, order[i], n)
  {
    DepthsShortest(procs, root, order, depth, order[j], n);
    var h :| 0 <= h < |order| && order[h] == order[j] && depth[h] <= n;
    assert h == j;
    assert depth[i] <= n && Walk(procs, root, order[i], depth[i]);
  }

  lemma SearchComplete(procs: seq<Process>, root: Pid, order: seq<Pid>, depth: seq<nat>)
    requires Search(procs, root, order, depth, |order|)
    ensures IsDescendantList(procs, root, order[1..])
  {
    var out := order[1..];
    assert NoRepeats(out);
    forall x ensures x in out <==> x != root && Reachable(procs, root, x) {
      VisitedIffReachable(procs, root, order, depth, x);
    }
    forall i, j, n: nat | 0 <= i < j < |out| && Walk(procs, root, out[j], n)
      ensures WithinSteps(procs, root, out[i], n)
    {
      NearerFirst(procs, root, order, depth, i + 1, j + 1, n);
    }
  }

  lemma {:induction false} DistinctFit(xs: seq<Pid>, universe: set<Pid>)
    requires NoRepeats(xs) && forall x | x in xs :: x in universe
    ensures |xs| <= |universe|
  {
    if xs != [] {
      assert forall i | 0 < i < |xs| :: xs[i] in xs;
      assert forall x | x in xs[1..] :: x in universe - {xs[0]};
      DistinctFit(xs[1..], universe - {xs[0]});
    }
  }

  /** The loop state of the search: what is seen, queued and collected, against the visiting order. */
  ghost predicate Bfs(
    procs: seq<Process>, root: Pid, order: seq<Pid>, depth: seq<nat>, k: nat,
    seen: set<Pid>, queue: seq<Pid>, out: seq<Pid>, next: nat)
    requires next <= |order|
  {
    && Search(procs, root, order, depth, k)
    && queue == order[next..] && out == order[1..]
    && (forall x :: x in seen <==> x in order)
    && forall x | x in order :: x in Pids(procs) + {root}
  }

  lemma BfsVisit(
    procs: seq<Process>, root: Pid, order: seq<Pid>, depth: seq<nat>, k: nat,
    seen: set<Pid>, queue: seq<Pid>, out: seq<Pid>, c: Pid)
    requires k < |order| && Bfs(procs, root, order, depth, k, seen, queue, out, k + 1)
    requires depth[|depth| - 1] <= depth[k] + 1 && Edge(procs, order[k], c) && c !in seen
    ensures var more, deeper := order + [c], depth + [depth[k] + 1];
            && Bfs(procs, root, more, deeper, k, seen + {c}, queue + [c], out + [c], k + 1)
            && Found(more, deeper, c, depth[k] + 1)
            && forall x, d | Found(order, depth, x, d) :: Found(more, deeper, x, d)
  {
    VisitChild(procs, root, order, depth, k, c);
    hide Search;
    assert c in Pids(procs);
  }

  /** Once all children of the k-th visit are found, it is expanded. */
  lemma BfsExpanded(
    procs: seq<Process>, root: Pid, order: seq<Pid>, depth: seq<nat>, k: nat,
    seen: set<Pid>, queue: seq<Pid>, out: seq<Pid>, children: seq<Pid>)
    requires k < |order| && Bfs(procs, root, order, depth, k, seen, queue, out, k + 1)
    requires forall c :: c in children <==> Edge(procs, order[k], c)
    requires forall j | 0 <= j < |children| :: Found(order, depth, children[j], depth[k] + 1)
    requires depth[|depth| - 1] <= depth[k] + 1
    ensures Bfs(procs, root, order, depth, k + 1, seen, queue, out, k + 1)
    ensures k + 1 < |order| ==> depth[|depth| - 1] <= depth[k + 1] + 1
  {
  }

  /** A visited process has a depth of at most one more than the one being expanded. */
  lemma AlreadyFound(
    procs: seq<Process>, root: Pid, order: seq<Pid>, depth: seq<nat>, k: nat,
    seen: set<Pid>, queue: seq<Pid>, out: seq<Pid>, c: Pid)
    requires k < |order| && Bfs(procs, root, order, depth, k, seen, queue, out, k + 1)
    requires depth[|depth| - 1] <= depth[k] + 1 && c in seen
    ensures Found(order, depth, c, depth[k] + 1)
  {
  }

  /** Enqueues the unseen children of the k-th visit. */
  method Expand(
    ghost procs: seq<Process>, ghost root: Pid, children: seq<Pid>, seen0: set<Pid>, queue0: seq<Pid>, out0: seq<Pid>,
    ghost order0: seq<Pid>, ghost depth0: seq<nat>, ghost k: nat)
    returns (seen: set<Pid>, queue: seq<Pid>, out: seq<Pid>, ghost order: seq<Pid>, ghost depth: seq<nat>)
    requires k < |order0| && Bfs(procs, root, order0, depth0, k, seen0, queue0, out0, k + 1)
    requires forall c :: c in children <==> Edge(procs, order0[k], c)
    requires depth0[|depth0| - 1] <= depth0[k] + 1
    ensures k < |order| && Bfs(procs, root, order, depth, k + 1, seen, queue, out, k + 1)
    ensures k + 1 < |order| ==> depth[|depth| - 1] <= depth[k + 1] + 1
  {
    seen, queue, out, order, depth := seen0, queue0, out0, order0, depth0;
    assert |depth| == |order|;
    hide Search, Edge, Found, Bfs;
    for i := 0 to |children|
      invariant k < |order| == |depth| && Bfs(procs, root, order, depth, k, seen, queue, out, k + 1)
      invariant order[k] == order0[k] && depth[k] == depth0[k] && depth[|depth| - 1] <= depth[k] + 1
      invariant forall j | 0 <= j < i :: Found(order, depth, children[j], depth[k] + 1)
    {
      var c := children[i];
      assert c in children;
      if c !in seen {
        BfsVisit(procs, root, order, depth, k, seen, queue, out, c);
        seen, out, queue := seen + {c}, out + [c], queue + [c];
        order, depth := order + [c], depth + [depth[k] + 1];
      } else {
        AlreadyFound(procs, root, order, depth, k, seen, queue, out, c);
      }
    }
    BfsExpanded(procs, root, order, depth, k, seen, queue, out, children);
  }

  method Descendants(procs: seq<Process>, pid: Pid) returns (out: seq<Pid>)
    ensures IsDescendantList(procs, pid, out)
  {
    var childrenOf := IndexChildren(procs);
    out := [];
    var seen, queue := {pid}, [pid];
    ghost var order, depth: seq<nat>, k := [pid], [0], 0;
    ghost var universe := Pids(procs) + {pid};
    while |queue| > 0
      invariant k <= |order| <= |universe| && Bfs(procs, pid, order, depth, k, seen, queue, out, k)
      invariant k < |order| ==> depth[|depth| - 1] <= depth[k] + 1
      decreases |universe| - k
    {
      var cur := queue[0];
      ChildrenAreEdges(procs, cur);
      seen, queue, out, order, depth :=
        Expand(procs, pid, if cur in childrenOf then childrenOf[cur] else [], seen, queue[1..], out, order, depth, k);
      DistinctFit(order, universe);
      k := k + 1;
    }
    SearchComplete(procs, pid, order, depth);
  }

  // ---- the chain of parents -----------------------------------------------------------

  /** The process with each pid; a later entry replaces an earlier one. */
  function ByPid(procs: seq<Process>): map<Pid, Process> {
    if procs == [] then map[] else ByPid(procs[..|procs| - 1])[procs[|procs| - 1].pid := procs[|procs| - 1]]
  }

  /** The pids met walking up from cur, none of them in seen, at most limit. */
  function Ancestors(byPid: map<Pid, Process>, seen: set<Pid>, cur: Pid, limit: nat): (pids: seq<Pid>)
    ensures forall p | p in pids :: p in byPid
    decreases limit
  {
    if limit == 0 || cur == 0 || cur in seen || cur !in byPid then []
    else [cur] + Ancestors(byPid, seen + {cur}, byPid[cur].ppid, limit - 1)
  }

  function ParentPids(procs: seq<Process>, pid: Pid): (pids: seq<Pid>)
    ensures forall p | p in pids :: p in ByPid(procs)
  {
    var byPid := ByPid(procs);
    if pid !in byPid then [] else Ancestors(byPid, {pid}, byPid[pid].ppid, MAX_CHAIN_DEPTH)
  }

  function DecimalText(n: nat): string {
    if n < 10 then [('0' as int + n) as char] else DecimalText(n / 10) + [('0' as int + n % 10) as char]
  }

  function DisplayName(p: Process, pid: Pid): string {
    if p.name == "" then "pid-" + DecimalText(pid) else p.name
  }

  /** The number that decimal digits stand for. */
  function DecimalValue(digits: string): int {
    if digits == "" then 0
    else 10 * DecimalValue(digits[..|digits| - 1]) + (digits[|digits| - 1] as int - '0' as int)
  }

  lemma {:induction false} DecimalReads(n: nat)
    ensures DecimalValue(DecimalText(n)) == n && forall c | c in DecimalText(n) :: '0' <= c <= '9'
  {
    if n < 10 {
      assert DecimalText(n)[..0] == "";
    } else {
      DecimalReads(n / 10);
      assert DecimalText(n)[..|DecimalText(n)| - 1] == DecimalText(n / 10);
    }
  }

  /** A process is shown by its name, and a nameless one by its pid, which can be read back. */
  lemma NameTells(p: Process, pid: Pid)
    ensures if p.name != "" then DisplayName(p, pid) == p.name
            else exists digits :: DisplayName(p, pid) == "pid-" + digits && DecimalValue(digits) == pid
                                  && forall c | c in digits :: '0' <= c <= '9'
  {
    DecimalReads(pid);
  }

  function Names(byPid: map<Pid, Process>, pids: seq<Pid>): seq<string>
    requires forall p | p in pids :: p in byPid
  {
    seq(|pids|, i requires 0 <= i < |pids| => DisplayName(byPid[pids[i]], pids[i]))
  }

  /** Each link leads from a process to its listed parent. */
  ghost predicate Linked(byPid: map<Pid, Process>, from: Pid, pids: seq<Pid>) {
    && (forall p | p in pids :: p in byPid && p != 0)
    && (pids != [] ==> pids[0] == from)
    && forall i | 0 < i < |pids| :: pids[i] == byPid[pids[i - 1]].ppid
  }

  /** Where the walk would go next. */
  function NextUp(byPid: map<Pid, Process>, from: Pid, pids: seq<Pid>): Pid
    requires forall p | p in pids :: p in byPid
  {
    if pids == [] then from else byPid[pids[|pids| - 1]].ppid
  }

  lemma {:induction false} ByPidIsLast(procs: seq<Process>, pid: Pid)
    ensures pid in ByPid(procs) <==> exists p | p in procs :: p.pid == pid
    ensures forall i | 0 <= i < |procs| && procs[i].pid == pid && (forall j | i < j < |procs| :: procs[j].pid != pid) ::
              ByPid(procs)[pid] == procs[i]
  {
    if procs != [] {
      ByPidIsLast(procs[..|procs| - 1], pid);
      assert procs == procs[..|procs| - 1] + [procs[|procs| - 1]];
    }
  }

  /** The chain of parents of a listed process starts with its own parent, follows parent links, has
      at most 16 links, none twice and never the process itself, and ends early only where it must;
      that of any other process is empty. */
  lemma ParentPidsExact(procs: seq<Process>, pid: Pid)
    ensures var pids, byPid := ParentPids(procs, pid), ByPid(procs);
            if forall p | p in procs :: p.pid != pid then pids == []
            else
              && pid in byPid && Linked(byPid, byPid[pid].ppid, pids) && NoRepeats(pids) && pid !in pids && |pids| <= 16
              && (|pids| < 16 ==>
                    var next := NextUp(byPid, byPid[pid].ppid, pids);
                    next == 0 || next !in byPid || next == pid || next in pids)
  {
    ByPidIsLast(procs, pid);
    var byPid := ByPid(procs);
    if pid in byPid {
      AncestorsExact(byPid, {pid}, byPid[pid].ppid, MAX_CHAIN_DEPTH);
    }
    hide Ancestors, Linked, ByPid;
  }

  /** The walk never repeats a pid, never exceeds its limit, follows parent links only, and
      stops early only at pid 0, at an unknown process or at one already met. */
  lemma {:induction false} AncestorsExact(byPid: map<Pid, Process>, seen: set<Pid>, cur: Pid, limit: nat)
    ensures var pids := Ancestors(byPid, seen, cur, limit);
            && |pids| <= limit && NoRepeats(pids) && (forall p | p in pids :: p !in seen)
            && Linked(byPid, cur, pids)
            && (|pids| < limit ==>
                  var next := NextUp(byPid, cur, pids); next == 0 || next !in byPid || next in seen || next in pids)
    decreases limit
  {
    var pids := Ancestors(byPid, seen, cur, limit);
    if pids != [] {
      AncestorsExact(byPid, seen + {cur}, byPid[cur].ppid, limit - 1);
      var rest := Ancestors(byPid, seen + {cur}, byPid[cur].ppid, limit - 1);
      assert pids == [cur] + rest;
      assert forall i | 0 < i < |pids| :: pids[i] == rest[i - 1] && rest[i - 1] in rest;
      assert NextUp(byPid, cur, pids) == NextUp(byPid, byPid[cur].ppid, rest);
    }
  }

  lemma NamesSnoc(byPid: map<Pid, Process>, pids: seq<Pid>, p: Pid)
    requires p in byPid && forall x | x in pids :: x in byPid
    ensures forall x | x in pids + [p] :: x in byPid
    ensures Names(byPid, pids + [p]) == Names(byPid, pids) + [DisplayName(byPid[p], p)]
  {
  }

  lemma ClimbStep(byPid: map<Pid, Process>, pids: seq<Pid>, seen: set<Pid>, cur: Pid, limit: nat)
    ensures var rest := Ancestors(byPid, seen, cur, limit);
            if limit == 0 || cur == 0 || cur in seen || cur !in byPid then pids + rest == pids
            else pids + rest == (pids + [cur]) + Ancestors(byPid, seen + {cur}, byPid[cur].ppid, limit - 1)
  {
  }

  method Climb(byPid: map<Pid, Process>, pid: Pid, from: Pid) returns (chain: seq<string>)
    ensures chain == Names(byPid, Ancestors(byPid, {pid}, from, MAX_CHAIN_DEPTH))
  {
    chain := [];
    ghost var pids: seq<Pid> := [];
    var seen, cur, i := {pid}, from, 0;
    ghost var whole := Ancestors(byPid, seen, cur, MAX_CHAIN_DEPTH);
    assert Names(byPid, pids) == chain && pids + whole == whole;
    hide Ancestors, Names, DisplayName;
    while i < MAX_CHAIN_DEPTH && cur != 0 && cur !in seen
      invariant 0 <= i <= MAX_CHAIN_DEPTH
      invariant whole == pids + Ancestors(byPid, seen, cur, MAX_CHAIN_DEPTH - i)
      invariant (forall p | p in pids :: p in byPid) && chain == Names(byPid, pids)
    {
      if cur !in byPid {
        break;
      }
      ClimbStep(byPid, pids, seen, cur, MAX_CHAIN_DEPTH - i);
      NamesSnoc(byPid, pids, cur);
      seen := seen + {cur};
      chain := chain + [DisplayName(byPid[cur], cur)];
      pids := pids + [cur];
      cur, i := byPid[cur].ppid, i + 1;
    }
    ClimbStep(byPid, pids, seen, cur, MAX_CHAIN_DEPTH - i);
  }

  method ParentChain(procs: seq<Process>, pid: Pid) returns (chain: seq<string>)
    ensures chain == Names(ByPid(procs), ParentPids(procs, pid)) && |chain| <= MAX_CHAIN_DEPTH
  {
    var byPid: map<Pid, Process> := map[];
    for i := 0 to |procs|
      invariant byPid == ByPid(procs[..i])
    {
      assert procs[..i + 1][..i] == procs[..i];
      byPid := byPid[procs[i].pid := procs[i]];
    }
    assert procs[..|procs|] == procs;
    if pid !in byPid {
      return [];
    }
    AncestorsExact(byPid, {pid}, byPid[pid].ppid, MAX_CHAIN_DEPTH);
    chain := Climb(byPid, pid, byPid[pid].ppid);
  }

  // ---- one enforcement tick -----------------------------------------------------------

  function TargetOf(p: Process): string {
    if p.path == "" then p.name else p.path
  }

  /** The engine's answer: with a trusted time all rules apply, without one only the timeless. */
  function Decide(fold: E.Folding, rules: seq<E.Rule>, p: Process, now: Option<E.Moment>): E.Decision {
    match now
    case Some(m) => E.EvaluateProcess(fold, rules, TargetOf(p), m)
    case None => E.EvaluateAlways(fold, rules, TargetOf(p))
  }

  predicate Condemned(fold: E.Folding, rules: seq<E.Rule>, self: Pid, now: Option<E.Moment>, p: Process) {
    p.pid != self && p.pid != 0 && Decide(fold, rules, p, now).Blocked?
  }

  /** A process is condemned exactly if it is neither the agent nor process 0 and some rule matches its
      path, or its name if it has none, and forbids it always or, given a trusted time, at that time. */
  lemma CondemnedExactly(fold: E.Folding, rules: seq<E.Rule>, self: Pid, now: Option<E.Moment>, p: Process)
    ensures Condemned(fold, rules, self, now, p) <==>
              && p.pid != self && p.pid != 0
              && exists r | r in rules ::
                   && E.MatchesTarget(fold, if p.path == "" then p.name else p.path, r.target)
                   && (r.kind == E.AppBlockAlways
                       || (now.Some? && r.kind == E.AppTimeBlock
                           && exists d: E.Weekday :: E.DayCovers(r, d, now.value)))
  {
    if now.Some? {
      E.BlocksWithFirstRule(fold, rules, TargetOf(p), now.value);
      E.AlwaysImpliesEveryMoment(fold, rules, TargetOf(p), now.value);
    } else {
      E.AlwaysImpliesEveryMoment(fold, rules, TargetOf(p), E.Moment(0, 0));
    }
    hide E.MatchesTarget, E.DayCovers, E.EvaluateProcess, E.EvaluateAlways;
  }

  function CondemnedOf(fold: E.Folding, rules: seq<E.Rule>, self: Pid, now: Option<E.Moment>, procs: seq<Process>)
    : seq<Process>
  {
    if procs == [] then []
    else
      var last := procs[|procs| - 1];
      var rest := CondemnedOf(fold, rules, self, now, procs[..|procs| - 1]);
      if Condemned(fold, rules, self, now, last) then rest + [last] else rest
  }

  lemma {:induction false} CondemnedMember(
    fold: E.Folding, rules: seq<E.Rule>, self: Pid, now: Option<E.Moment>, procs: seq<Process>, p: Process)
    ensures p in CondemnedOf(fold, rules, self, now, procs) <==> p in procs && Condemned(fold, rules, self, now, p)
  {
    if procs != [] {
      CondemnedMember(fold, rules, self, now, procs[..|procs| - 1], p);
      assert procs == procs[..|procs| - 1] + [procs[|procs| - 1]];
    }
  }

  /** For each target in turn, its descendants and then the target itself. */
  function KillOrder(targets: seq<Process>, trees: seq<seq<Pid>>): seq<Pid>
    requires |trees| == |targets|
  {
    if targets == [] then []
    else
      var n := |targets| - 1;
      KillOrder(targets[..n], trees[..n]) + trees[n] + [targets[n].pid]
  }

  /** How many targets fall to their own kill; succeeds tells the outcome of the n-th kill of the
      tick, so a process that is killed twice can be gone the second time. */
  function CountEnforced(succeeds: nat -> bool, targets: seq<Process>, trees: seq<seq<Pid>>): nat
    requires |trees| == |targets|
  {
    if targets == [] then 0
    else
      var n := |targets| - 1;
      CountEnforced(succeeds, targets[..n], trees[..n])
      + if succeeds(|KillOrder(targets[..n], trees[..n])| + |trees[n]|) then 1 else 0
  }

  lemma KillOrderSnoc(targets: seq<Process>, trees: seq<seq<Pid>>, p: Process, kids: seq<Pid>)
    requires |trees| == |targets|
    ensures KillOrder(targets + [p], trees + [kids]) == KillOrder(targets, trees) + kids + [p.pid]
  {
  }

  lemma CountLast(succeeds: nat -> bool, targets: seq<Process>, trees: seq<seq<Pid>>, n: nat)
    requires |trees| == |targets| == n + 1
    ensures CountEnforced(succeeds, targets, trees)
         == CountEnforced(succeeds, targets[..n], trees[..n])
            + if succeeds(|KillOrder(targets[..n], trees[..n])| + |trees[n]|) then 1 else 0
  {
    hide KillOrder;
  }

  lemma CountSnoc(
    succeeds: nat -> bool, targets: seq<Process>, trees: seq<seq<Pid>>, p: Process, kids: seq<Pid>)
    requires |trees| == |targets|
    ensures CountEnforced(succeeds, targets + [p], trees + [kids])
         == CountEnforced(succeeds, targets, trees)
            + if succeeds(|KillOrder(targets, trees)| + |kids|) then 1 else 0
  {
    hide KillOrder, CountEnforced;
    CountLast(succeeds, targets + [p], trees + [kids], |targets|);
    assert (targets + [p])[..|targets|] == targets && (trees + [kids])[..|targets|] == trees;
  }

  /** The i-th tree lists the descendants of the i-th target. */
  ghost predicate Forest(procs: seq<Process>, targets: seq<Process>, trees: seq<seq<Pid>>) {
    |trees| == |targets| && forall i | 0 <= i < |trees| :: IsDescendantList(procs, targets[i].pid, trees[i])
  }

  /** Each target's descendants, nearest first, and then the target, target by target. */
  ghost predicate IsKillList(procs: seq<Process>, targets: seq<Process>, kills: seq<Pid>) {
    exists trees :: Forest(procs, targets, trees) && kills == KillOrder(targets, trees)
  }

  /** Such a list along the given trees, in which so many of the targets' own kills succeed. */
  ghost predicate Killed(procs: seq<Process>, targets: seq<Process>, trees: seq<seq<Pid>>,
                         succeeds: nat -> bool, kills: seq<Pid>, enforced: nat)
  {
    && Forest(procs, targets, trees) && kills == KillOrder(targets, trees)
    && enforced == CountEnforced(succeeds, targets, trees)
  }

  ghost predicate TickOutcome(
    procs: seq<Process>, targets: seq<Process>, succeeds: nat -> bool, kills: seq<Pid>, enforced: nat)
  {
    exists trees :: Killed(procs, targets, trees, succeeds, kills, enforced)
  }

  /** Kills the descendants of p, nearest first, and then p itself, after what was killed so far. */
  method KillTree(procs: seq<Process>, ghost targets: seq<Process>, ghost trees: seq<seq<Pid>>,
                  succeeds: nat -> bool, before: seq<Pid>, count: nat, p: Process)
    returns (kills: seq<Pid>, enforced: nat, ghost kids: seq<Pid>)
    requires Killed(procs, targets, trees, succeeds, before, count)
    ensures Killed(procs, targets + [p], trees + [kids], succeeds, kills, enforced)
  {
    var tree := Descendants(procs, p.pid);
    hide IsDescendantList;
    KillOrderSnoc(targets, trees, p, tree);
    CountSnoc(succeeds, targets, trees, p, tree);
    hide KillOrder, CountEnforced;
    kills, kids := before + tree, tree;
    enforced := if succeeds(|kills|) then count + 1 else count;
    kills := kills + [p.pid];
  }

  lemma KilledIsOutcome(procs: seq<Process>, targets: seq<Process>, trees: seq<seq<Pid>>,
                        succeeds: nat -> bool, kills: seq<Pid>, enforced: nat)
    requires Killed(procs, targets, trees, succeeds, kills, enforced)
    ensures TickOutcome(procs, targets, succeeds, kills, enforced) && IsKillList(procs, targets, kills)
  {
    hide Forest, KillOrder, CountEnforced;
  }

  lemma NothingKilled(fold: E.Folding, rules: seq<E.Rule>, self: Pid, now: Option<E.Moment>, procs: seq<Process>,
                      succeeds: nat -> bool)
    ensures CondemnedOf(fold, rules, self, now, procs[..0]) == []
    ensures Killed(procs, [], [], succeeds, [], 0)
  {
  }

  lemma CondemnedSnoc(
    fold: E.Folding, rules: seq<E.Rule>, self: Pid, now: Option<E.Moment>, procs: seq<Process>, i: nat)
    requires i < |procs|
    ensures var before, more := CondemnedOf(fold, rules, self, now, procs[..i]), procs[..i + 1];
            CondemnedOf(fold, rules, self, now, more)
            == if Condemned(fold, rules, self, now, procs[i]) then before + [procs[i]] else before
  {
    hide Condemned;
    assert procs[..i + 1][..i] == procs[..i];
  }

  /** Kills every condemned process with its whole tree, children first; in audit mode only
      counts what it would have enforced. */
  method Tick(fold: E.Folding, rules: seq<E.Rule>, self: Pid, now: Option<E.Moment>, auditOnly: bool,
              succeeds: nat -> bool, procs: seq<Process>)
    returns (kills: seq<Pid>, enforced: nat)
    ensures var targets := CondemnedOf(fold, rules, self, now, procs);
            if auditOnly then kills == [] && enforced == |targets|
            else TickOutcome(procs, targets, succeeds, kills, enforced) && IsKillList(procs, targets, kills)
  {
    kills, enforced := [], 0;
    ghost var targets, trees := [], [];
    NothingKilled(fold, rules, self, now, procs, succeeds);
    hide Killed, Forest, KillOrder, CountEnforced, CondemnedOf, Condemned, Decide;
    hide TickOutcome, IsKillList, IsDescendantList;
    for i := 0 to |procs|
      invariant targets == CondemnedOf(fold, rules, self, now, procs[..i])
      invariant if auditOnly then kills == [] && enforced == |targets|
                else Killed(procs, targets, trees, succeeds, kills, enforced)
    {
      var p := procs[i];
      CondemnedSnoc(fold, rules, self, now, procs, i);
      if !Condemned(fold, rules, self, now, p) {
        continue;
      }
      if auditOnly {
        enforced := enforced + 1;
      } else {
        ghost var kids;
        kills, enforced, kids := KillTree(procs, targets, trees, succeeds, kills, enforced, p);
        trees := trees + [kids];
      }
      targets := targets + [p];
    }
    assert procs[..|procs|] == procs;
    if !auditOnly {
      KilledIsOutcome(procs, targets, trees, succeeds, kills, enforced);
    }
  }

  lemma {:induction false} OrderKills(procs: seq<Process>, targets: seq<Process>, trees: seq<seq<Pid>>, x: Pid)
    requires Forest(procs, targets, trees)
    ensures x in KillOrder(targets, trees) <==> exists p | p in targets :: Reachable(procs, p.pid, x)
  {
    hide Reachable, NearestFirst;
    if targets != [] {
      var n := |targets| - 1;
      OrderKills(procs, targets[..n], trees[..n], x);
      assert targets == targets[..n] + [targets[n]];
      SelfReachable(procs, targets[n].pid);
      assert x in trees[n] + [targets[n].pid] <==> Reachable(procs, targets[n].pid, x);
    }
  }

  /** What a tick kills is exactly what can be reached from a condemned process. */
  lemma KillsExactly(procs: seq<Process>, targets: seq<Process>, kills: seq<Pid>, x: Pid)
    requires IsKillList(procs, targets, kills)
    ensures x in kills <==> exists p | p in targets :: Reachable(procs, p.pid, x)
  {
    hide Reachable, IsDescendantList;
    var trees :| Forest(procs, targets, trees) && kills == KillOrder(targets, trees);
    OrderKills(procs, targets, trees, x);
  }

  /** Children first: a tick kills a condemned process only after everything that can be reached from it. */
  lemma {:induction false} ChildrenFirst(
    procs: seq<Process>, targets: seq<Process>, trees: seq<seq<Pid>>, p: Process, x: Pid) returns (i: nat, j: nat)
    requires Forest(procs, targets, trees) && p in targets && x != p.pid && Reachable(procs, p.pid, x)
    ensures i < j < |KillOrder(targets, trees)|
    ensures KillOrder(targets, trees)[i] == x && KillOrder(targets, trees)[j] == p.pid
  {
    hide Reachable, NearestFirst;
    var n := |targets| - 1;
    var before := KillOrder(targets[..n], trees[..n]);
    if p == targets[n] {
      i :| 0 <= i < |trees[n]| && trees[n][i] == x;
      i, j := |before| + i, |before| + |trees[n]|;
    } else {
      i, j := ChildrenFirst(procs, targets[..n], trees[..n], p, x);
    }
  }

  /** So in the list of what a tick kills, whatever can be reached from a condemned process comes before it. */
  lemma ChildrenKilledFirst(procs: seq<Process>, targets: seq<Process>, kills: seq<Pid>, p: Process, x: Pid)
    requires IsKillList(procs, targets, kills) && p in targets && x != p.pid && Reachable(procs, p.pid, x)
    ensures exists i, j | 0 <= i < j < |kills| :: kills[i] == x && kills[j] == p.pid
  {
    hide Reachable, IsDescendantList;
    var trees :| Forest(procs, targets, trees) && kills == KillOrder(targets, trees);
    var i, j := ChildrenFirst(procs, targets, trees, p, x);
  }

  lemma SelfReachable(procs: seq<Process>, x: Pid)
    ensures Reachable(procs, x, x)
  {
    assert Walk(procs, x, x, 0);
  }

  /** The agent skips its own entry, but not its place in the tree: a tick kills the agent
      exactly when some condemned process is among its ancestors. */
  lemma AgentSparedExactly(
    fold: E.Folding, rules: seq<E.Rule>, self: Pid, now: Option<E.Moment>, procs: seq<Process>, kills: seq<Pid>)
    requires IsKillList(procs, CondemnedOf(fold, rules, self, now, procs), kills)
    ensures self in kills <==>
            exists p | p in procs ::
              p.pid != 0 && p.pid != self && Decide(fold, rules, p, now).Blocked? && Reachable(procs, p.pid, self)
  {
    KillsExactly(procs, CondemnedOf(fold, rules, self, now, procs), kills, self);
    hide Reachable, Decide, IsKillList;
    forall p ensures p in CondemnedOf(fold, rules, self, now, procs) <==>
                       p in procs && Condemned(fold, rules, self, now, p) {
      CondemnedMember(fold, rules, self, now, procs, p);
    }
    hide CondemnedOf;
  }
}
