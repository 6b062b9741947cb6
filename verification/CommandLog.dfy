/** The agent's persistent record of executed commands, and the heartbeat protocol in which it
    keeps redelivered commands from running twice. */
module CommandLog {
  import opened Results

  const TTL := 86400 // 24 hours in seconds

  /** executed maps a command id to the clock reading of its record; disk is the content of the
      saved file, None when there is no file. */
  datatype State = State(executed: map<string, int>, acks: set<string>, disk: Option<map<string, int>>)

  /** The two clock readings of a record (one stamps it, one prunes) and whether the save worked. */
  datatype Reading = Reading(stamp: int, prune: int, saved: bool)

  // ---- specification of the log -------------------------------------------------------

  function Pruned(m: map<string, int>, now: int): map<string, int> {
    map id | id in m && m[id] >= now - TTL :: m[id]
  }

  /** A file that cannot be read counts as empty, but stays where it is. */
  function Opened(disk: Option<map<string, int>>, readable: bool, now: int): State {
    State(Pruned(if readable && disk.Some? then disk.value else map[], now), {}, disk)
  }

  function Recorded(s: State, id: string, r: Reading): State {
    if id == "" then s
    else
      var executed := Pruned(s.executed[id := r.stamp], r.prune);
      s.(executed := executed, disk := if r.saved then Some(executed) else s.disk)
  }

  function AckQueued(s: State, id: string): State {
    if id == "" then s else s.(acks := s.acks + {id})
  }

  predicate Knows(s: State, id: string) {
    id != "" && id in s.executed
  }

  // ---- the log ------------------------------------------------------------------------

  class Log {
    var executed: map<string, int>
    var acks: set<string>
    var disk: Option<map<string, int>>

    ghost function Now(): State
      reads this
    {
      State(executed, acks, disk)
    }

    constructor (file: Option<map<string, int>>, readable: bool, now: int)
      ensures Now() == Opened(file, readable, now)
    {
      executed, acks, disk := if readable && file.Some? then file.value else map[], {}, file;
      new;
      Prune(now);
    }

    method Prune(now: int)
      modifies this`executed
      ensures executed == Pruned(old(executed), now)
    {
      var cutoff := now - TTL;
      var todo := executed.Keys;
      while todo != {}
        invariant todo <= executed.Keys <= old(executed).Keys
        invariant forall id | id in executed :: executed[id] == old(executed)[id]
        invariant forall id | id in old(executed) && id !in todo :: id in executed <==> old(executed)[id] >= cutoff
        decreases todo
      {
        var id :| id in todo;
        todo := todo - {id};
        if executed[id] < cutoff {
          executed := executed - {id};
        }
      }
    }

    method Executed(id: string) returns (known: bool)
      ensures known == Knows(Now(), id)
    {
      known := id != "" && id in executed;
    }

    method Record(id: string, r: Reading)
      modifies this`executed, this`disk
      ensures Now() == Recorded(old(Now()), id, r)
    {
      if id == "" {
        return;
      }
      executed := executed[id := r.stamp];
      Prune(r.prune);
      if r.saved {
        disk := Some(executed);
      }
    }

    method QueueAck(id: string)
      modifies this`acks
      ensures Now() == AckQueued(old(Now()), id)
    {
      if id == "" {
        return;
      }
      acks := acks + {id};
    }

    /** A snapshot of the queue in some order; the queue itself is left alone. */
    method TakeAcks() returns (out: seq<string>)
      ensures (forall id :: id in out <==> id in acks) && |out| == |acks|
    {
      out := [];
      var todo := acks;
      while todo != {}
        invariant todo <= acks && |out| + |todo| == |acks|
        invariant forall id :: id in out <==> id in acks && id !in todo
        decreases todo
      {
        var id :| id in todo;
        todo := todo - {id};
        out := out + [id];
      }
    }

    method ConfirmAcks(ids: seq<string>)
      modifies this`acks
      ensures acks == old(acks) - set id | id in ids
    {
      for i := 0 to |ids|
        invariant acks == old(acks) - set id | id in ids[..i]
      {
        assert ids[..i + 1] == ids[..i] + [ids[i]];
        acks := acks - {ids[i]};
      }
      assert ids[..|ids|] == ids;
    }
  }

  // ---- the heartbeat protocol ---------------------------------------------------------

  /** The log, the acknowledgements carried by the heartbeat in flight, and the command whose
      effect has begun but is not recorded yet. */
  datatype World = World(log: State, carried: Option<set<string>>, running: Option<string>)

  datatype Action =
    | Beat                                // a heartbeat leaves with the current acknowledgements
    | BeatOk                              // its answer arrives
    | BeatLost                            // it fails
    | Handle(id: string)                  // a delivered command is looked at, and begun if unknown
    | Finish(reading: Reading)            // the begun command is recorded and queued for acknowledgement
    | Crash(readable: bool, now: int)     // the agent dies and restarts from its file

  /** The command takes effect in this step. */
  predicate Executes(w: World, a: Action, id: string) {
    a == Handle(id) && w.running.None? && !Knows(w.log, id)
  }

  function Step(w: World, a: Action): World {
    match a
    case Beat => w.(carried := Some(w.log.acks))
    case BeatOk =>
      if w.carried.None? then w else w.(log := w.log.(acks := w.log.acks - w.carried.value), carried := None)
    case BeatLost => w.(carried := None)
    case Handle(id) =>
      if w.running.Some? then w
      else if Knows(w.log, id) then w.(log := AckQueued(w.log, id))
      else w.(running := Some(id))
    case Finish(r) =>
      if w.running.None? then w
      else w.(log := AckQueued(Recorded(w.log, w.running.value, r), w.running.value), running := None)
    case Crash(readable, now) =>
      World(Opened(w.log.disk, readable, now), None, None)
  }

  /** handleCommands: each command in turn, with the clock readings of its record. */
  function Handled(w: World, ids: seq<string>, readings: seq<Reading>): World
    requires |readings| == |ids|
    decreases |ids|
  {
    if ids == [] then w
    else
      var n := |ids| - 1;
      Step(Step(Handled(w, ids[..n], readings[..n]), Handle(ids[n])), Finish(readings[n]))
  }

  /** The commands that take effect while ids are handled. */
  function RanOf(w: World, ids: seq<string>, readings: seq<Reading>): seq<string>
    requires |readings| == |ids|
    decreases |ids|
  {
    if ids == [] then []
    else
      var n := |ids| - 1;
      var before := RanOf(w, ids[..n], readings[..n]);
      if Executes(Handled(w, ids[..n], readings[..n]), Handle(ids[n]), ids[n]) then before + [ids[n]] else before
  }

  method HandleCommands(log: Log, ids: seq<string>, readings: seq<Reading>) returns (ran: seq<string>)
    requires |readings| == |ids|
    modifies log
    ensures Handled(World(old(log.Now()), None, None), ids, readings) == World(log.Now(), None, None)
    ensures ran == RanOf(World(old(log.Now()), None, None), ids, readings)
  {
    ran := [];
    ghost var start := World(log.Now(), None, None);
    for i := 0 to |ids|
      invariant Handled(start, ids[..i], readings[..i]) == World(log.Now(), None, None)
      invariant ran == RanOf(start, ids[..i], readings[..i])
    {
      var id := ids[i];
      assert ids[..i + 1][..i] == ids[..i] && readings[..i + 1][..i] == readings[..i];
      var known := log.Executed(id);
      if known {
        log.QueueAck(id);
        continue;
      }
      ran := ran + [id];
      log.Record(id, readings[i]);
      log.QueueAck(id);
    }
    assert ids[..|ids|] == ids && readings[..|readings|] == readings;
  }

  // ---- whole runs ---------------------------------------------------------------------

  /** The world before the n-th action. */
  function At(w: World, actions: seq<Action>, n: nat): World
    requires n <= |actions|
  {
    if n == 0 then w else Step(At(w, actions, n - 1), actions[n - 1])
  }

  /** The clock reading under which the execution begun in step i is recorded before step n. */
  function RecordedAt(w: World, actions: seq<Action>, i: nat, n: nat): Option<int>
    requires i < n <= |actions|
  {
    if n == i + 1 then None
    else
      var earlier := RecordedAt(w, actions, i, n - 1);
      if earlier.None? && actions[n - 1].Finish? then Some(actions[n - 1].reading.stamp) else earlier
  }

  /** The record of the execution begun in step i is on disk before step k. */
  predicate OnDisk(w: World, actions: seq<Action>, i: nat, k: nat, id: string)
    requires i < k <= |actions|
  {
    var stamp, disk := RecordedAt(w, actions, i, k), At(w, actions, k).log.disk;
    stamp.Some? && disk.Some? && id in disk.value && disk.value[id] == stamp.value
  }

  /** The agent crashes in step k while that record is not on disk. */
  predicate CrashedBeforeSaved(w: World, actions: seq<Action>, i: nat, k: nat, id: string)
    requires i < k < |actions|
  {
    actions[k].Crash? && !OnDisk(w, actions, i, k, id)
  }

  /** The agent crashes in step k while that record is on disk, and cannot read its file afterwards. */
  predicate FileLost(w: World, actions: seq<Action>, i: nat, k: nat, id: string)
    requires i < k < |actions|
  {
    actions[k].Crash? && !actions[k].readable && OnDisk(w, actions, i, k, id)
  }

  /** The clock reading under which step k discards old records, if it does. */
  function PrunedAt(w: World, actions: seq<Action>, k: nat): Option<int>
    requires k < |actions|
  {
    match actions[k]
    case Crash(_, now) => Some(now)
    case Finish(r) =>
      var running := At(w, actions, k).running;
      if running.Some? && running.value != "" then Some(r.prune) else None
    case _ => None
  }

  /** In step k old records are discarded more than 24 hours past the record of that execution. */
  predicate ClockPassed(w: World, actions: seq<Action>, i: nat, k: nat)
    requires i < k < |actions|
  {
    var stamp, now := RecordedAt(w, actions, i, k + 1), PrunedAt(w, actions, k);
    stamp.Some? && now.Some? && now.value > stamp.value + TTL
  }

  /** The log still guards id: its execution is under way or recorded under the given reading. */
  predicate Guarded(w: World, id: string, stamp: Option<int>) {
    match stamp
    case None => w.running == Some(id)
    case Some(t) => id in w.log.executed && w.log.executed[id] == t && w.running != Some(id)
  }

  /** One of the three ways in which step k can make the agent forget that execution. */
  predicate Forgets(w: World, actions: seq<Action>, i: nat, k: nat, id: string)
    requires i < k < |actions|
  {
    CrashedBeforeSaved(w, actions, i, k, id) || FileLost(w, actions, i, k, id) || ClockPassed(w, actions, i, k)
  }

  lemma {:induction false} StaysGuarded(w: World, actions: seq<Action>, i: nat, n: nat, id: string)
    requires i < n <= |actions| && id != "" && Executes(At(w, actions, i), actions[i], id)
    requires forall k | i < k < n :: !Forgets(w, actions, i, k, id)
    ensures Guarded(At(w, actions, n), id, RecordedAt(w, actions, i, n))
    decreases n
  {
    if n > i + 1 {
      StaysGuarded(w, actions, i, n - 1, id);
      assert !Forgets(w, actions, i, n - 1, id);
    }
  }

  /** Guarded execution, over every run: between two executions of the same non-empty command
      id the agent crashed before the record of the first was on disk, or crashed and could not
      read its file afterwards, or its clock advanced more than 24 hours past that record. */
  lemma ExecutionsSeparated(w: World, actions: seq<Action>, i: nat, j: nat, id: string)
    requires i < j < |actions| && id != ""
    requires Executes(At(w, actions, i), actions[i], id) && Executes(At(w, actions, j), actions[j], id)
    ensures exists k | i < k < j :: Forgets(w, actions, i, k, id)
  {
    if forall k | i < k < j :: !Forgets(w, actions, i, k, id) {
      StaysGuarded(w, actions, i, j, id);
    }
  }

  /** As long as the file can be read after every crash, only the crash before the save and the
      clock remain. */
  lemma ReadableRunsSeparated(w: World, actions: seq<Action>, i: nat, j: nat, id: string)
    requires i < j < |actions| && id != ""
    requires forall k | i < k < j && actions[k].Crash? :: actions[k].readable
    requires Executes(At(w, actions, i), actions[i], id) && Executes(At(w, actions, j), actions[j], id)
    ensures exists k | i < k < j :: CrashedBeforeSaved(w, actions, i, k, id) || ClockPassed(w, actions, i, k)
  {
    ExecutionsSeparated(w, actions, i, j, id);
    var k :| i < k < j && Forgets(w, actions, i, k, id);
    assert CrashedBeforeSaved(w, actions, i, k, id) || ClockPassed(w, actions, i, k);
  }

  /** The lost file is a case of its own: here the record is saved, no clock passes, and the
      command runs twice. */
  lemma LostFileRunsTwice()
    ensures var w := World(State(map[], {}, None), None, None);
            var actions := [Handle("x"), Finish(Reading(5, 5, true)), Crash(false, 5), Handle("x")];
            && Executes(At(w, actions, 0), actions[0], "x") && Executes(At(w, actions, 3), actions[3], "x")
            && FileLost(w, actions, 0, 2, "x")
            && forall k | 0 < k < 3 :: !CrashedBeforeSaved(w, actions, 0, k, "x") && !ClockPassed(w, actions, 0, k)
  {
    var w := World(State(map[], {}, None), None, None);
    var actions := [Handle("x"), Finish(Reading(5, 5, true)), Crash(false, 5), Handle("x")];
    assert At(w, actions, 1) == w.(running := Some("x"));
    assert Pruned(map["x" := 5], 5) == map["x" := 5];
    assert At(w, actions, 2).log == State(map["x" := 5], {"x"}, Some(map["x" := 5]));
    assert At(w, actions, 3).log.executed == map[];
  }

  // ---- when a delivery runs again -----------------------------------------------------

  /** The command does not take effect between steps i and n. */
  predicate NotRunBetween(w: World, actions: seq<Action>, i: nat, n: nat, id: string)
    requires n <= |actions|
  {
    forall k | i < k < n :: !Executes(At(w, actions, k), actions[k], id)
  }

  /** The log neither holds a record of the command nor is about to get one. */
  predicate Absent(w: World, id: string) {
    id !in w.log.executed && w.running != Some(id)
  }

  /** After the crash in step k the log holds a record of the command from its file. */
  predicate Restores(w: World, actions: seq<Action>, k: nat, id: string)
    requires k < |actions|
  {
    var disk := At(w, actions, k).log.disk;
    && actions[k].Crash? && actions[k].readable && disk.Some? && id in disk.value
    && disk.value[id] >= actions[k].now - TTL
  }

  /** Step k takes the record of the command out of the log: a crash after which the file does not
      give one back, or a pruning of the one in memory. */
  predicate Drops(w: World, actions: seq<Action>, k: nat, id: string)
    requires k < |actions|
  {
    var before, now := At(w, actions, k), PrunedAt(w, actions, k);
    match actions[k]
    case Crash(_, _) => !Restores(w, actions, k, id)
    case Finish(r) =>
      && now.Some?
      && if before.running == Some(id) then r.stamp < now.value - TTL
         else id in before.log.executed && before.log.executed[id] < now.value - TTL
    case _ => false
  }

  /** The last step before n that touched the record took it away. */
  predicate Dropped(w: World, actions: seq<Action>, i: nat, n: nat, id: string)
    requires n <= |actions|
  {
    exists k | i < k < n :: Drops(w, actions, k, id) && forall l | k < l < n :: !Restores(w, actions, l, id)
  }

  lemma AbsentStep(w: World, actions: seq<Action>, n: nat, id: string)
    requires n < |actions| && id != "" && !Executes(At(w, actions, n), actions[n], id)
    ensures Restores(w, actions, n, id) ==> !Absent(At(w, actions, n + 1), id)
    ensures Drops(w, actions, n, id) ==> Absent(At(w, actions, n + 1), id)
    ensures !Restores(w, actions, n, id) && !Drops(w, actions, n, id) ==>
              (Absent(At(w, actions, n + 1), id) <==> Absent(At(w, actions, n), id))
  {
  }

  lemma DroppedStep(w: World, actions: seq<Action>, i: nat, n: nat, id: string)
    requires i < n < |actions|
    ensures Dropped(w, actions, i, n + 1, id) <==>
              Drops(w, actions, n, id) || (Dropped(w, actions, i, n, id) && !Restores(w, actions, n, id))
  {
    hide Drops, Restores;
    if Dropped(w, actions, i, n + 1, id) {
      var k :| i < k < n + 1 && Drops(w, actions, k, id) && forall l | k < l < n + 1 :: !Restores(w, actions, l, id);
      assert k < n ==> Dropped(w, actions, i, n, id) && !Restores(w, actions, n, id);
    }
  }

  lemma BegunIsPresent(w: World, actions: seq<Action>, i: nat, id: string)
    requires i < |actions| && Executes(At(w, actions, i), actions[i], id)
    ensures !Absent(At(w, actions, i + 1), id) && !Dropped(w, actions, i, i + 1, id)
  {
  }

  lemma {:induction false} AbsentExactly(w: World, actions: seq<Action>, i: nat, n: nat, id: string)
    requires i < n <= |actions| && id != "" && Executes(At(w, actions, i), actions[i], id)
    requires NotRunBetween(w, actions, i, n, id)
    ensures Absent(At(w, actions, n), id) <==> Dropped(w, actions, i, n, id)
    decreases n
  {
    hide At, Restores, Drops, Dropped, Absent, Executes;
    if n == i + 1 {
      BegunIsPresent(w, actions, i, id);
    } else {
      AbsentExactly(w, actions, i, n - 1, id);
      AbsentStep(w, actions, n - 1, id);
      DroppedStep(w, actions, i, n - 1, id);
    }
  }

  /** When the next delivery runs again, exactly and over every run: if and only if some step since
      the first execution took the record out of the log and no later crash gave it back. */
  lemma RunsAgainExactly(w: World, actions: seq<Action>, i: nat, j: nat, id: string)
    requires i < j < |actions| && id != "" && Executes(At(w, actions, i), actions[i], id)
    requires NotRunBetween(w, actions, i, j, id) && actions[j] == Handle(id) && At(w, actions, j).running.None?
    ensures Executes(At(w, actions, j), actions[j], id) <==> Dropped(w, actions, i, j, id)
  {
    AbsentExactly(w, actions, i, j, id);
    hide Dropped;
  }

  /** Since step i the record is lost to an unreadable file, and no crash since could read it. */
  predicate Lost(w: World, actions: seq<Action>, i: nat, n: nat, id: string)
    requires n <= |actions|
  {
    exists k | i < k < n ::
      FileLost(w, actions, i, k, id) && forall l | k < l < n && actions[l].Crash? :: !actions[l].readable
  }

  lemma {:induction false} RecordedStays(w: World, actions: seq<Action>, i: nat, k: nat, n: nat)
    requires i < k <= n <= |actions| && RecordedAt(w, actions, i, k).Some?
    ensures RecordedAt(w, actions, i, n) == RecordedAt(w, actions, i, k)
    decreases n
  {
    if k < n {
      RecordedStays(w, actions, i, k, n - 1);
    }
  }

  /** No crash before the save and no clock 24 hours ahead, from step i to step n. */
  predicate Undisturbed(w: World, actions: seq<Action>, i: nat, n: nat, id: string)
    requires n <= |actions|
  {
    forall k | i < k < n :: !CrashedBeforeSaved(w, actions, i, k, id) && !ClockPassed(w, actions, i, k)
  }

  /** What the log knows of an undisturbed execution: it is under way, or its record is in the log
      unless it is lost. */
  predicate KnownUnlessLost(w: World, actions: seq<Action>, i: nat, n: nat, id: string)
    requires i < n <= |actions|
  {
    var now := At(w, actions, n);
    match RecordedAt(w, actions, i, n)
    case None => now.running == Some(id) && !Lost(w, actions, i, n, id)
    case Some(t) =>
      && now.running != Some(id) && (id in now.log.executed <==> !Lost(w, actions, i, n, id))
      && (id in now.log.executed ==> now.log.executed[id] == t)
  }

  lemma LostStep(w: World, actions: seq<Action>, i: nat, n: nat, id: string)
    requires i < n < |actions|
    ensures Lost(w, actions, i, n + 1, id) <==>
              || FileLost(w, actions, i, n, id)
              || (Lost(w, actions, i, n, id) && !(actions[n].Crash? && actions[n].readable))
    ensures Lost(w, actions, i, n, id) ==> RecordedAt(w, actions, i, n).Some?
  {
    hide FileLost;
    if Lost(w, actions, i, n + 1, id) {
      var k :| i < k < n + 1 && FileLost(w, actions, i, k, id)
               && forall l | k < l < n + 1 && actions[l].Crash? :: !actions[l].readable;
      assert k < n ==> Lost(w, actions, i, n, id);
    }
    if Lost(w, actions, i, n, id) {
      var k :| i < k < n && FileLost(w, actions, i, k, id)
               && forall l | k < l < n && actions[l].Crash? :: !actions[l].readable;
      LostIsRecorded(w, actions, i, k, id);
      RecordedStays(w, actions, i, k, n);
    }
  }

  lemma LostIsRecorded(w: World, actions: seq<Action>, i: nat, k: nat, id: string)
    requires i < k < |actions| && FileLost(w, actions, i, k, id)
    ensures RecordedAt(w, actions, i, k).Some?
  {
  }

  lemma KnownStep(w: World, actions: seq<Action>, i: nat, n: nat, id: string)
    requires i < n < |actions| && id != "" && KnownUnlessLost(w, actions, i, n, id)
    requires !Executes(At(w, actions, n), actions[n], id)
    requires !CrashedBeforeSaved(w, actions, i, n, id) && !ClockPassed(w, actions, i, n)
    ensures KnownUnlessLost(w, actions, i, n + 1, id)
  {
    LostStep(w, actions, i, n, id);
    hide Lost;
  }

  lemma {:induction false} UndisturbedKnown(w: World, actions: seq<Action>, i: nat, n: nat, id: string)
    requires i < n <= |actions| && id != "" && Executes(At(w, actions, i), actions[i], id)
    requires NotRunBetween(w, actions, i, n, id) && Undisturbed(w, actions, i, n, id)
    ensures KnownUnlessLost(w, actions, i, n, id)
    decreases n
  {
    if n > i + 1 {
      UndisturbedKnown(w, actions, i, n - 1, id);
      hide Executes, CrashedBeforeSaved, ClockPassed, KnownUnlessLost;
      KnownStep(w, actions, i, n - 1, id);
    }
  }

  /** If the record was on disk at every crash and the clock did not pass, the next delivery runs
      again if and only if the file could not be read after the last crash. */
  lemma LostFileExactly(w: World, actions: seq<Action>, i: nat, j: nat, id: string)
    requires i < j < |actions| && id != "" && Executes(At(w, actions, i), actions[i], id)
    requires NotRunBetween(w, actions, i, j, id) && actions[j] == Handle(id) && At(w, actions, j).running.None?
    requires Undisturbed(w, actions, i, j, id)
    ensures Executes(At(w, actions, j), actions[j], id) <==> Lost(w, actions, i, j, id)
  {
    UndisturbedKnown(w, actions, i, j, id);
    hide Lost;
  }

  /** The readings under which old records are discarded never go back. */
  predicate ClockForward(w: World, actions: seq<Action>, i: nat, n: nat)
    requires n <= |actions|
  {
    forall k, l | i < k < l < n && PrunedAt(w, actions, k).Some? && PrunedAt(w, actions, l).Some? ::
      PrunedAt(w, actions, k).value <= PrunedAt(w, actions, l).value
  }

  /** The file holds no record of the command. */
  predicate NotOnFile(w: World, id: string) {
    w.log.disk.Some? ==> id !in w.log.disk.value
  }

  /** Every record of the command, in the log or on file, is the one of the execution in step i. */
  predicate OnlyRecord(w: World, actions: seq<Action>, i: nat, n: nat, id: string)
    requires i < n <= |actions|
  {
    var now, stamp := At(w, actions, n), RecordedAt(w, actions, i, n);
    && (id in now.log.executed ==> stamp == Some(now.log.executed[id]))
    && (!NotOnFile(now, id) ==> stamp == Some(now.log.disk.value[id]))
    && (now.running == Some(id) ==> stamp.None?)
  }

  lemma OnlyRecordStep(w: World, actions: seq<Action>, i: nat, n: nat, id: string)
    requires i < n < |actions| && id != "" && OnlyRecord(w, actions, i, n, id)
    requires !Executes(At(w, actions, n), actions[n], id)
    ensures OnlyRecord(w, actions, i, n + 1, id)
  {
  }

  lemma {:induction false} FirstRecordIsOnly(w: World, actions: seq<Action>, i: nat, n: nat, id: string)
    requires i < n <= |actions| && id != "" && Executes(At(w, actions, i), actions[i], id)
    requires NotRunBetween(w, actions, i, n, id) && NotOnFile(At(w, actions, i), id)
    ensures OnlyRecord(w, actions, i, n, id)
    decreases n
  {
    if n > i + 1 {
      hide Executes, OnlyRecord, NotOnFile;
      FirstRecordIsOnly(w, actions, i, n - 1, id);
      OnlyRecordStep(w, actions, i, n - 1, id);
    }
  }

  /** The command is absent for good: a record left on file is too old to come back. */
  predicate Gone(w: World, actions: seq<Action>, i: nat, n: nat, id: string)
    requires n <= |actions|
  {
    var now := At(w, actions, n);
    && Absent(now, id)
    && (!NotOnFile(now, id) ==>
          exists k | i < k < n :: PrunedAt(w, actions, k).Some?
                                  && PrunedAt(w, actions, k).value > now.log.disk.value[id] + TTL)
  }

  lemma GoneBegins(w: World, actions: seq<Action>, i: nat, n: nat, id: string)
    requires i < n < |actions| && id != "" && OnlyRecord(w, actions, i, n, id)
    requires CrashedBeforeSaved(w, actions, i, n, id) || ClockPassed(w, actions, i, n)
    requires !Executes(At(w, actions, n), actions[n], id)
    ensures Gone(w, actions, i, n + 1, id)
  {
    assert PrunedAt(w, actions, n).Some?;
  }

  lemma GoneStep(w: World, actions: seq<Action>, i: nat, n: nat, id: string)
    requires i < n < |actions| && id != "" && Gone(w, actions, i, n, id)
    requires ClockForward(w, actions, i, n + 1) && !Executes(At(w, actions, n), actions[n], id)
    ensures Gone(w, actions, i, n + 1, id)
  {
    if !NotOnFile(At(w, actions, n), id) {
      var k :| i < k < n && PrunedAt(w, actions, k).Some?
               && PrunedAt(w, actions, k).value > At(w, actions, n).log.disk.value[id] + TTL;
      assert PrunedAt(w, actions, n).Some? ==> PrunedAt(w, actions, n).value >= PrunedAt(w, actions, k).value;
    }
  }

  lemma {:induction false} GoneStays(w: World, actions: seq<Action>, i: nat, m: nat, n: nat, id: string)
    requires i < m <= n <= |actions| && id != "" && Gone(w, actions, i, m, id)
    requires ClockForward(w, actions, i, n) && NotRunBetween(w, actions, i, n, id)
    ensures Gone(w, actions, i, n, id)
    decreases n
  {
    hide At, Gone, Executes;
    if m < n {
      GoneStays(w, actions, i, m, n - 1, id);
      GoneStep(w, actions, i, n - 1, id);
    }
  }

  lemma DisturbedIsGone(w: World, actions: seq<Action>, i: nat, k: nat, j: nat, id: string)
    requires i < k < j <= |actions| && id != "" && Executes(At(w, actions, i), actions[i], id)
    requires NotRunBetween(w, actions, i, j, id) && NotOnFile(At(w, actions, i), id) && ClockForward(w, actions, i, j)
    requires CrashedBeforeSaved(w, actions, i, k, id) || ClockPassed(w, actions, i, k)
    ensures Gone(w, actions, i, j, id)
  {
    hide CrashedBeforeSaved, ClockPassed, ClockForward, Executes, Gone, OnlyRecord, NotOnFile;
    FirstRecordIsOnly(w, actions, i, k, id);
    GoneBegins(w, actions, i, k, id);
    GoneStays(w, actions, i, k + 1, j, id);
  }

  /** With a clock that never goes back, and for the first record of a command: the next delivery
      runs again if and only if since its execution the agent crashed before the record was on
      disk, or discarded old records more than 24 hours past it, or could not read its file after
      the last crash. */
  lemma ForgottenExactly(w: World, actions: seq<Action>, i: nat, j: nat, id: string)
    requires i < j < |actions| && id != "" && Executes(At(w, actions, i), actions[i], id)
    requires NotRunBetween(w, actions, i, j, id) && actions[j] == Handle(id) && At(w, actions, j).running.None?
    requires NotOnFile(At(w, actions, i), id) && ClockForward(w, actions, i, j)
    ensures Executes(At(w, actions, j), actions[j], id) <==>
              Lost(w, actions, i, j, id)
              || exists k | i < k < j :: CrashedBeforeSaved(w, actions, i, k, id) || ClockPassed(w, actions, i, k)
  {
    hide Lost, CrashedBeforeSaved, ClockPassed, ClockForward, NotRunBetween;
    if Undisturbed(w, actions, i, j, id) {
      LostFileExactly(w, actions, i, j, id);
    } else {
      var k :| i < k < j && (CrashedBeforeSaved(w, actions, i, k, id) || ClockPassed(w, actions, i, k));
      DisturbedIsGone(w, actions, i, k, j, id);
    }
  }

  // ---- acknowledgements ---------------------------------------------------------------

  /** A pending acknowledgement leaves the queue in step n. */
  predicate AckLeaves(w: World, actions: seq<Action>, n: nat, id: string)
    requires n < |actions|
  {
    id in At(w, actions, n).log.acks && id !in At(w, actions, n + 1).log.acks
  }

  /** Step m sends a heartbeat that carries id and is the one in flight in step n. */
  predicate CarriedBy(w: World, actions: seq<Action>, m: nat, n: nat, id: string)
    requires m < n <= |actions|
  {
    && actions[m] == Beat && id in At(w, actions, m).log.acks
    && forall k | m < k < n ::
         actions[k] != Beat && actions[k] != BeatOk && actions[k] != BeatLost && !actions[k].Crash?
  }

  lemma {:induction false} InFlightWasSent(w: World, actions: seq<Action>, n: nat, id: string) returns (m: nat)
    requires w.carried.None? && n <= |actions|
    requires At(w, actions, n).carried.Some? && id in At(w, actions, n).carried.value
    ensures m < n && CarriedBy(w, actions, m, n, id)
    decreases n
  {
    if actions[n - 1] == Beat {
      return n - 1;
    }
    m := InFlightWasSent(w, actions, n - 1, id);
  }

  /** At-least-once acknowledgement: a queued acknowledgement leaves the queue only when a
      heartbeat that carried it succeeds, or in a crash. */
  lemma AckLeavesOnlyDelivered(w: World, actions: seq<Action>, n: nat, id: string) returns (m: nat)
    requires w.carried.None? && n < |actions| && AckLeaves(w, actions, n, id)
    ensures actions[n].Crash? || (actions[n] == BeatOk && m < n && CarriedBy(w, actions, m, n, id))
  {
    m := 0;
    if actions[n] == BeatOk {
      m := InFlightWasSent(w, actions, n, id);
    }
  }

  /** Step n redelivers a command the log knows, or completes its execution. */
  predicate Answers(w: World, actions: seq<Action>, n: nat, id: string)
    requires n < |actions|
  {
    var before := At(w, actions, n);
    || (actions[n] == Handle(id) && before.running.None? && Knows(before.log, id))
    || (actions[n].Finish? && before.running == Some(id))
  }

  /** In step k the acknowledgement is delivered by the heartbeat that carried it, or the agent
      crashes. */
  predicate Released(w: World, actions: seq<Action>, k: nat, id: string)
    requires k < |actions|
  {
    actions[k].Crash? || (actions[k] == BeatOk && exists m | 0 <= m < k :: CarriedBy(w, actions, m, k, id))
  }

  /** Every redelivery of a known command and every completed execution is acknowledged: the id is
      queued from then on, until a heartbeat that carried it succeeds or the agent crashes. */
  lemma {:induction false} DeliveryIsAcknowledged(w: World, actions: seq<Action>, n: nat, m: nat, id: string)
    requires w.carried.None? && n < m <= |actions| && id != "" && Answers(w, actions, n, id)
    ensures id in At(w, actions, m).log.acks || exists k | n < k < m :: Released(w, actions, k, id)
    decreases m
  {
    if m > n + 1 {
      DeliveryIsAcknowledged(w, actions, n, m - 1, id);
      if AckLeaves(w, actions, m - 1, id) {
        var h := AckLeavesOnlyDelivered(w, actions, m - 1, id);
        assert Released(w, actions, m - 1, id);
      }
      hide Released, CarriedBy;
    }
  }

  lemma {:induction false} CarriedArrives(w: World, actions: seq<Action>, m: nat, n: nat, id: string)
    requires m < n <= |actions| && CarriedBy(w, actions, m, n, id)
    ensures At(w, actions, n).carried.Some? && id in At(w, actions, n).carried.value
    decreases n
  {
    if m + 1 < n {
      CarriedArrives(w, actions, m, n - 1, id);
    }
  }

  /** One step of the queue: an answer puts the id in, its delivery or a crash takes it out. */
  lemma QueueStep(w: World, actions: seq<Action>, n: nat, id: string)
    requires w.carried.None? && n < |actions| && id != ""
    ensures id in At(w, actions, n + 1).log.acks <==>
              Answers(w, actions, n, id) || (id in At(w, actions, n).log.acks && !Released(w, actions, n, id))
  {
    var before := At(w, actions, n);
    if actions[n] == BeatOk {
      if before.carried.Some? && id in before.carried.value {
        var m := InFlightWasSent(w, actions, n, id);
      }
      forall m | 0 <= m < n && CarriedBy(w, actions, m, n, id)
        ensures before.carried.Some? && id in before.carried.value
      {
        CarriedArrives(w, actions, m, n, id);
      }
    }
    hide CarriedBy;
  }

  /** Since some answer for the id, neither its delivery nor a crash. */
  predicate Owed(w: World, actions: seq<Action>, n: nat, id: string)
    requires n <= |actions|
  {
    exists k | 0 <= k < n :: Answers(w, actions, k, id) && forall l | k < l < n :: !Released(w, actions, l, id)
  }

  lemma OwedStep(w: World, actions: seq<Action>, n: nat, id: string)
    requires n < |actions|
    ensures Owed(w, actions, n + 1, id) <==>
              Answers(w, actions, n, id) || (Owed(w, actions, n, id) && !Released(w, actions, n, id))
  {
    hide Answers, Released;
    if Owed(w, actions, n + 1, id) {
      var k :| 0 <= k < n + 1 && Answers(w, actions, k, id) && forall l | k < l < n + 1 :: !Released(w, actions, l, id);
      assert k < n ==> Owed(w, actions, n, id) && !Released(w, actions, n, id);
    }
  }

  /** The queue, exactly and over every run from an empty one: an id is in it if and only if the command
      was redelivered or completed and since then neither a heartbeat that carried the id succeeded nor
      the agent crashed. */
  lemma {:induction false} QueuedExactly(w: World, actions: seq<Action>, n: nat, id: string)
    requires w.carried.None? && w.log.acks == {} && n <= |actions| && id != ""
    ensures id in At(w, actions, n).log.acks <==> Owed(w, actions, n, id)
    decreases n
  {
    if n > 0 {
      hide At, Owed, Answers, Released;
      QueuedExactly(w, actions, n - 1, id);
      QueueStep(w, actions, n - 1, id);
      OwedStep(w, actions, n - 1, id);
    }
  }
}
