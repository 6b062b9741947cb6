/** The watchdog: swapping and rolling back the agent binary, and the supervision loop. */
module Watchdog {
  import opened ByteStrings
  import opened Results

  // ---- a model file system ------------------------------------------------------------

  datatype File = Binary | Backup | Staged | Version | Manifest | Sig

  type Content = seq<int>
  type Disk = map<File, Content>

  const STAGING: set<File> := {Staged, Version, Manifest, Sig}

  /** How a file copy turns out; a torn copy leaves the first n bytes in the destination. */
  datatype CopyOutcome = Done | Untouched | Torn(n: nat)

  function Copied(disk: Disk, src: File, dst: File, o: CopyOutcome): (Disk, bool) {
    if src !in disk then (disk, false)
    else
      match o
      case Done => (disk[dst := disk[src]], true)
      case Untouched => (disk, false)
      case Torn(n) => (disk[dst := if n < |disk[src]| then disk[src][..n] else disk[src]], false)
  }

  /** What the operating system does for an update: whether the version file can be read, the two
      copies, the rename, and the files whose removal fails. */
  datatype SwapLuck = SwapLuck(
    readable: bool, backup: CopyOutcome, renames: bool, copy: CopyOutcome, stuck: set<File>)

  /** The re-verification hook, if one is configured, judges the staged files on the disk. */
  type Hook = Option<Disk -> bool>

  // ---- swap and rollback --------------------------------------------------------------

  function Accepts(hook: Hook, disk: Disk): bool {
    hook.Some? ==> hook.value(disk)
  }

  /** The disk with a backup of the binary, if there is a binary. */
  function BackedUp(disk: Disk, luck: SwapLuck): (Disk, bool) {
    if Binary in disk then Copied(disk, Binary, Backup, luck.backup) else (disk, true)
  }

  /** The staged file moved onto the binary. */
  function Moved(disk: Disk, luck: SwapLuck): (Disk, bool) {
    if luck.renames && Staged in disk then ((disk - {Staged})[Binary := disk[Staged]], true)
    else
      var (copied, ok) := Copied(disk, Staged, Binary, luck.copy);
      (if ok then copied - ({Staged} - luck.stuck) else copied, ok)
  }

  function Swapped(disk: Disk, hook: Hook, luck: SwapLuck): (Disk, bool) {
    if !Accepts(hook, disk) then (disk - (STAGING - luck.stuck), false)
    else
      var (saved, savedOk) := BackedUp(disk, luck);
      if !savedOk then (saved, false)
      else
        var (moved, movedOk) := Moved(saved, luck);
        if !movedOk then (moved, false)
        else (moved - ({Version, Manifest, Sig} - luck.stuck), true)
  }

  function RolledBack(disk: Disk, o: CopyOutcome): (Disk, bool) {
    Copied(disk, Backup, Binary, o)
  }

  class FileSwapper {
    var disk: Disk
    const hook: Hook

    constructor (disk: Disk, hook: Hook)
      ensures this.disk == disk && this.hook == hook
    {
      this.disk, this.hook := disk, hook;
    }

    /** The version file's content, empty when it cannot be read, and the staged file. */
    method PendingStaged(readable: bool) returns (pending: Option<(Content, File)>)
      ensures pending.Some? <==> Staged in disk
      ensures pending.Some? ==> pending.value.1 == Staged
      ensures pending.Some? ==> pending.value.0 == if readable && Version in disk then disk[Version] else []
    {
      if Staged !in disk {
        return None;
      }
      var version := [];
      if readable && Version in disk {
        version := disk[Version];
      }
      return Some((version, Staged));
    }

    method CopyFile(src: File, dst: File, o: CopyOutcome) returns (ok: bool)
      modifies this
      ensures (disk, ok) == Copied(old(disk), src, dst, o)
    {
      if src !in disk || o.Untouched? {
        return false;
      }
      var content := disk[src];
      if o.Torn? {
        disk := disk[dst := if o.n < |content| then content[..o.n] else content];
        return false;
      }
      disk := disk[dst := content];
      return true;
    }

    method Swap(luck: SwapLuck) returns (ok: bool)
      modifies this
      ensures (disk, ok) == Swapped(old(disk), hook, luck)
    {
      if hook.Some? && !hook.value(disk) {
        disk := disk - (STAGING - luck.stuck);
        return false;
      }
      if Binary in disk {
        var saved := CopyFile(Binary, Backup, luck.backup);
        if !saved {
          return false;
        }
      }
      if luck.renames && Staged in disk {
        disk := (disk - {Staged})[Binary := disk[Staged]];
      } else {
        var copied := CopyFile(Staged, Binary, luck.copy);
        if !copied {
          return false;
        }
        disk := disk - ({Staged} - luck.stuck);
      }
      disk := disk - ({Version, Manifest, Sig} - luck.stuck);
      return true;
    }

    method Rollback(o: CopyOutcome) returns (ok: bool)
      modifies this
      ensures (disk, ok) == RolledBack(old(disk), o)
    {
      ok := CopyFile(Backup, Binary, o);
    }
  }

  // ---- the supervision loop -----------------------------------------------------------

  /** Durations are int64 nanoseconds; those of the options are not negative. */
  type Duration = d: int | 0 <= d <= MAX_I64

  const SECOND: Duration := 1_000_000_000

  datatype Config = Config(base: Duration, max: Duration, trial: Duration)

  /** NewSupervisor: an option left at zero gets its default. */
  method Configure(options: Config) returns (cfg: Config)
    ensures cfg.base == (if options.base == 0 then SECOND else options.base) > 0
    ensures cfg.max == (if options.max == 0 then 30 * SECOND else options.max) > 0
    ensures cfg.trial == (if options.trial == 0 then 10 * SECOND else options.trial) > 0
  {
    cfg := options;
    if cfg.base == 0 {
      cfg := cfg.(base := SECOND);
    }
    if cfg.max == 0 {
      cfg := cfg.(max := 30 * SECOND);
    }
    if cfg.trial == 0 {
      cfg := cfg.(trial := 10 * SECOND);
    }
  }

  /** What one turn of the loop meets: a request to stop, the luck of its file operations, the
      agent's run (how long, clean or crashed, interrupted by cancellation, and the staging files
      it leaves behind). */
  datatype Turn = Turn(
    stop: bool, luck: SwapLuck, ran: nat, clean: bool, cancelled: bool, staging: Disk, rollback: CopyOutcome)

  /** The disk, the loop's two variables, whether it has returned, the time spent running and
      sleeping, the number of completed turns and the sleep of the last one. */
  datatype Sup = Sup(disk: Disk, backoff: I64, onTrial: bool, halted: bool, elapsed: nat, turns: nat, slept: I64)

  /** The doubling is int64 arithmetic, which wraps around. */
  function NextBackoff(cur: I64, max: Duration): I64 {
    var n := WrapI64(cur * 2);
    if n > max then max else n
  }

  /** A sleep of a negative duration returns at once. */
  function TimeAsleep(d: I64): nat {
    if d > 0 then d else 0
  }

  /** While it runs, the agent touches staging files only. */
  function AfterRun(disk: Disk, staging: Disk): Disk {
    (map f | f in disk && f !in STAGING :: disk[f]) + (map f | f in staging && f in STAGING :: staging[f])
  }

  function SwapPhase(s: Sup, hook: Hook, t: Turn): (Disk, bool) {
    if Staged !in s.disk then (s.disk, s.onTrial)
    else
      var (disk, ok) := Swapped(s.disk, hook, t.luck);
      (disk, ok || s.onTrial)
  }

  function Step(s: Sup, cfg: Config, hook: Hook, t: Turn): Sup {
    if s.halted then s
    else if t.stop then s.(halted := true)
    else
      var (swapped, trial) := SwapPhase(s, hook, t);
      var disk := AfterRun(swapped, t.staging);
      if t.cancelled then s.(disk := disk, onTrial := trial, halted := true, elapsed := s.elapsed + t.ran)
      else if t.clean then
        var sleep := if t.ran < cfg.base then cfg.base else 0;
        Sup(disk, cfg.base, false, false, s.elapsed + t.ran + sleep, s.turns + 1, sleep)
      else
        var rollback := trial && t.ran < cfg.trial;
        var backoff := if rollback then cfg.base else NextBackoff(s.backoff, cfg.max);
        Sup(if rollback then RolledBack(disk, t.rollback).0 else disk, backoff, false, false,
            s.elapsed + t.ran + TimeAsleep(backoff), s.turns + 1, backoff)
  }

  function Start(disk: Disk, cfg: Config): Sup {
    Sup(disk, cfg.base, false, false, 0, 0, 0)
  }

  function Run(disk: Disk, cfg: Config, hook: Hook, turns: seq<Turn>): Sup
    decreases |turns|
  {
    if turns == [] then Start(disk, cfg)
    else Step(Run(disk, cfg, hook, turns[..|turns| - 1]), cfg, hook, turns[|turns| - 1])
  }

  /** Supervisor.Run, for as long as the given turns last or until it returns. */
  method Supervise(swapper: FileSwapper, cfg: Config, turns: seq<Turn>) returns (s: Sup)
    modifies swapper
    ensures s == Run(old(swapper.disk), cfg, swapper.hook, turns) && s.disk == swapper.disk
  {
    hide Swapped, RolledBack, AfterRun, NextBackoff;
    var backoff: I64, onTrial := cfg.base, false;
    var elapsed: nat, completed: nat, slept: I64 := 0, 0, 0;
    for i := 0 to |turns|
      invariant Sup(swapper.disk, backoff, onTrial, false, elapsed, completed, slept)
             == Run(old(swapper.disk), cfg, swapper.hook, turns[..i])
    {
      var t := turns[i];
      assert turns[..i + 1][..i] == turns[..i];
      if t.stop {
        HaltedStays(old(swapper.disk), cfg, swapper.hook, turns, i + 1);
        return Sup(swapper.disk, backoff, onTrial, true, elapsed, completed, slept);
      }
      var pending := swapper.PendingStaged(t.luck.readable);
      if pending.Some? {
        var ok := swapper.Swap(t.luck);
        if ok {
          onTrial := true;
        }
      }
      swapper.disk := AfterRun(swapper.disk, t.staging);
      elapsed := elapsed + t.ran;
      if t.cancelled {
        HaltedStays(old(swapper.disk), cfg, swapper.hook, turns, i + 1);
        return Sup(swapper.disk, backoff, onTrial, true, elapsed, completed, slept);
      }
      completed := completed + 1;
      if t.clean {
        onTrial, slept := false, 0;
        if t.ran < cfg.base {
          slept := cfg.base;
        }
        elapsed, backoff := elapsed + TimeAsleep(slept), cfg.base;
        continue;
      }
      if onTrial && t.ran < cfg.trial {
        var restored := swapper.Rollback(t.rollback);
        onTrial, backoff := false, cfg.base;
      } else {
        backoff, onTrial := NextBackoff(backoff, cfg.max), false;
      }
      elapsed, slept := elapsed + TimeAsleep(backoff), backoff;
    }
    assert turns[..|turns|] == turns;
    s := Sup(swapper.disk, backoff, onTrial, false, elapsed, completed, slept);
  }

  lemma {:induction false} HaltedStays(disk: Disk, cfg: Config, hook: Hook, turns: seq<Turn>, i: nat)
    requires i <= |turns| && Run(disk, cfg, hook, turns[..i]).halted
    ensures Run(disk, cfg, hook, turns) == Run(disk, cfg, hook, turns[..i])
    decreases |turns|
  {
    if i < |turns| {
      assert turns[..|turns| - 1][..i] == turns[..i];
      HaltedStays(disk, cfg, hook, turns[..|turns| - 1], i);
    } else {
      assert turns[..i] == turns;
    }
  }

  // ---- what can be installed ----------------------------------------------------------

  /** No copy onto the binary or its backup is torn. */
  predicate CopiesAtomic(t: Turn) {
    !t.luck.backup.Torn? && !t.luck.copy.Torn? && !t.rollback.Torn?
  }

  /** The contents the hook has accepted as staged file at the start of one of the turns. */
  ghost predicate AcceptedIn(disk: Disk, cfg: Config, hook: Hook, turns: seq<Turn>, content: Content) {
    exists i | 0 <= i < |turns| ::
      var d := Run(disk, cfg, hook, turns[..i]).disk;
      Staged in d && d[Staged] == content && Accepts(hook, d)
  }

  /** The content was there at the start, as binary or backup, or was accepted by the hook. */
  ghost predicate Vouched(disk: Disk, cfg: Config, hook: Hook, turns: seq<Turn>, content: Content) {
    || (Binary in disk && disk[Binary] == content) || (Backup in disk && disk[Backup] == content)
    || AcceptedIn(disk, cfg, hook, turns, content)
  }

  lemma AcceptedGrows(disk: Disk, cfg: Config, hook: Hook, turns: seq<Turn>, content: Content)
    requires turns != [] && AcceptedIn(disk, cfg, hook, turns[..|turns| - 1], content)
    ensures AcceptedIn(disk, cfg, hook, turns, content)
  {
    var front := turns[..|turns| - 1];
    var i :| 0 <= i < |front| && var d := Run(disk, cfg, hook, front[..i]).disk;
             Staged in d && d[Staged] == content && Accepts(hook, d);
    assert front[..i] == turns[..i];
  }

  /** The content is the disk's binary or backup, or its staged file if the hook accepts that. */
  predicate FromDisk(disk: Disk, hook: Hook, content: Content) {
    || (Binary in disk && disk[Binary] == content) || (Backup in disk && disk[Backup] == content)
    || (Staged in disk && disk[Staged] == content && Accepts(hook, disk))
  }

  lemma SwapInstalls(disk: Disk, hook: Hook, luck: SwapLuck, f: File)
    requires !luck.backup.Torn? && !luck.copy.Torn? && (f == Binary || f == Backup)
    requires f in Swapped(disk, hook, luck).0
    ensures FromDisk(disk, hook, Swapped(disk, hook, luck).0[f])
  {
  }

  /** A successful swap installs exactly the staged bytes, which the hook accepted, and keeps
      those of the replaced binary as the backup. */
  lemma SwapBacksUp(disk: Disk, hook: Hook, luck: SwapLuck)
    requires Swapped(disk, hook, luck).1
    ensures Staged in disk && Accepts(hook, disk)
    ensures var after := Swapped(disk, hook, luck).0;
            && Binary in after && after[Binary] == disk[Staged]
            && (Binary in disk ==> Backup in after && after[Backup] == disk[Binary])
  {
  }

  lemma SwapPhaseInstalls(s: Sup, hook: Hook, t: Turn, f: File)
    requires CopiesAtomic(t) && (f == Binary || f == Backup) && f in SwapPhase(s, hook, t).0
    ensures FromDisk(s.disk, hook, SwapPhase(s, hook, t).0[f])
  {
    if Staged in s.disk {
      SwapInstalls(s.disk, hook, t.luck, f);
    }
    hide Swapped;
  }

  /** After the swap phase, a turn changes the binary and its backup only by putting the backup
      into the place of the binary. */
  lemma StepKeepsFiles(s: Sup, cfg: Config, hook: Hook, t: Turn, f: File)
    requires CopiesAtomic(t) && (f == Binary || f == Backup) && f in Step(s, cfg, hook, t).disk
    ensures var (content, phase) := (Step(s, cfg, hook, t).disk[f], SwapPhase(s, hook, t).0);
            || (f in s.disk && s.disk[f] == content)
            || (f in phase && phase[f] == content) || (Backup in phase && phase[Backup] == content)
  {
    hide SwapPhase, NextBackoff, TimeAsleep;
  }

  /** A step installs nothing but the old binary, the old backup or an accepted staged file. */
  lemma StepInstalls(s: Sup, cfg: Config, hook: Hook, t: Turn, f: File)
    requires CopiesAtomic(t) && (f == Binary || f == Backup) && f in Step(s, cfg, hook, t).disk
    ensures FromDisk(s.disk, hook, Step(s, cfg, hook, t).disk[f])
  {
    hide Step, SwapPhase, CopiesAtomic;
    StepKeepsFiles(s, cfg, hook, t, f);
    if f in SwapPhase(s, hook, t).0 {
      SwapPhaseInstalls(s, hook, t, f);
    }
    if Backup in SwapPhase(s, hook, t).0 {
      SwapPhaseInstalls(s, hook, t, Backup);
    }
  }

  /** Provenance over every run: the installed binary and its backup are always contents that
      were there at the start or that the hook accepted when they were staged. */
  lemma {:induction false} OnlyVouchedInstalled(disk: Disk, cfg: Config, hook: Hook, turns: seq<Turn>, f: File)
    requires (forall t | t in turns :: CopiesAtomic(t)) && (f == Binary || f == Backup)
    requires f in Run(disk, cfg, hook, turns).disk
    ensures Vouched(disk, cfg, hook, turns, Run(disk, cfg, hook, turns).disk[f])
    decreases |turns|
  {
    if turns != [] {
      hide Step;
      var n := |turns| - 1;
      var front, t := turns[..n], turns[n];
      var s := Run(disk, cfg, hook, front);
      var content := Run(disk, cfg, hook, turns).disk[f];
      StepInstalls(s, cfg, hook, t, f);
      if Binary in s.disk && s.disk[Binary] == content {
        OnlyVouchedInstalled(disk, cfg, hook, front, Binary);
      } else if Backup in s.disk && s.disk[Backup] == content {
        OnlyVouchedInstalled(disk, cfg, hook, front, Backup);
      }
      if AcceptedIn(disk, cfg, hook, front, content) {
        AcceptedGrows(disk, cfg, hook, turns, content);
      }
    }
  }

  /** The loop rolls back in this turn. */
  predicate RollsBack(s: Sup, cfg: Config, hook: Hook, t: Turn) {
    !s.halted && !t.stop && !t.cancelled && !t.clean && SwapPhase(s, hook, t).1 && t.ran < cfg.trial
  }

  lemma {:induction false} NeverOnTrialAtTop(disk: Disk, cfg: Config, hook: Hook, turns: seq<Turn>)
    ensures Run(disk, cfg, hook, turns).onTrial ==> Run(disk, cfg, hook, turns).halted
    decreases |turns|
  {
  }

  /** The installed binary is replaced only by a swap that succeeded or by a rollback. */
  lemma BinaryMovesOnlyBy(s: Sup, cfg: Config, hook: Hook, t: Turn)
    requires CopiesAtomic(t) && !RollsBack(s, cfg, hook, t)
    requires Staged in s.disk ==> !Swapped(s.disk, hook, t.luck).1
    ensures Binary in Step(s, cfg, hook, t).disk <==> Binary in s.disk
    ensures Binary in s.disk ==> Step(s, cfg, hook, t).disk[Binary] == s.disk[Binary]
  {
  }

  /** Every rollback of every run undoes a swap that succeeded in the same turn; when a binary
      was installed before the swap, a completed rollback puts its exact bytes back. */
  lemma RollbackUndoesSwap(disk: Disk, cfg: Config, hook: Hook, turns: seq<Turn>, t: Turn)
    requires var s := Run(disk, cfg, hook, turns); RollsBack(s, cfg, hook, t)
    ensures var s := Run(disk, cfg, hook, turns);
            && Staged in s.disk && Accepts(hook, s.disk) && Swapped(s.disk, hook, t.luck).1
            && (Binary in s.disk && t.rollback.Done? ==>
                  Binary in Step(s, cfg, hook, t).disk && Step(s, cfg, hook, t).disk[Binary] == s.disk[Binary])
  {
    NeverOnTrialAtTop(disk, cfg, hook, turns);
    var s := Run(disk, cfg, hook, turns);
    hide Run;
    assert Swapped(s.disk, hook, t.luck).1 && SwapPhase(s, hook, t).0 == Swapped(s.disk, hook, t.luck).0;
    SwapBacksUp(s.disk, hook, t.luck);
    hide Swapped, SwapPhase;
  }

  // ---- when an update stays -----------------------------------------------------------

  /** A swap succeeds exactly when there is a staged file that the hook, if there is one, accepts,
      a binary can be saved, and the staged file can be moved or copied into its place. */
  lemma SwapSucceedsExactly(disk: Disk, hook: Hook, luck: SwapLuck)
    requires Staged in disk
    ensures Swapped(disk, hook, luck).1 <==>
              && (hook.None? || hook.value(disk))
              && (Binary in disk ==> luck.backup.Done?) && (luck.renames || luck.copy.Done?)
    ensures Swapped(disk, hook, luck).1 ==>
              forall f | f in {Staged, Version, Manifest, Sig} && f !in luck.stuck :: f !in Swapped(disk, hook, luck).0
  {
  }

  /** What the hook rejects is cleared away, and nothing else changes. */
  lemma RejectedIsCleared(disk: Disk, hook: Hook, luck: SwapLuck, f: File)
    requires hook.Some? && !hook.value(disk)
    ensures var after := Swapped(disk, hook, luck).0;
            && (f in after <==> f in disk && (f == Binary || f == Backup || f in luck.stuck))
            && (f in after ==> after[f] == disk[f])
  {
  }

  /** The binary after a turn that swapped in the staged file: that file if the agent outlived its
      trial or exited cleanly, and otherwise what the rollback makes of the backup. */
  function BinaryAfterUpdate(disk: Disk, cfg: Config, t: Turn): Content
    requires Staged in disk
  {
    if t.clean || t.ran >= cfg.trial || t.rollback.Untouched? || (Binary !in disk && Backup !in disk) then disk[Staged]
    else
      var saved := disk[if Binary in disk then Binary else Backup];
      if t.rollback.Torn? && t.rollback.n < |saved| then saved[..t.rollback.n] else saved
  }

  /** An update stays exactly if it outlives its trial: in every run, after a turn with a successful
      swap, the binary is the staged file if the agent exited cleanly or ran through the trial
      window, and after an earlier crash with a completed rollback it is the old binary again. */
  lemma UpdateStaysExactly(disk: Disk, cfg: Config, hook: Hook, turns: seq<Turn>, t: Turn)
    requires var s := Run(disk, cfg, hook, turns);
             && !s.halted && !t.stop && !t.cancelled
             && Staged in s.disk && Swapped(s.disk, hook, t.luck).1
    ensures var before, after := Run(disk, cfg, hook, turns).disk, Run(disk, cfg, hook, turns + [t]).disk;
            && Binary in after && after[Binary] == BinaryAfterUpdate(before, cfg, t)
            && (t.clean || t.ran >= cfg.trial ==> after[Binary] == before[Staged])
            && (!t.clean && t.ran < cfg.trial && t.rollback.Done? && Binary in before ==>
                  after[Binary] == before[Binary])
            && (Binary in before ==> Backup in after && after[Backup] == before[Binary])
  {
    NeverOnTrialAtTop(disk, cfg, hook, turns);
    OneMoreTurn(disk, cfg, hook, turns, t);
    var s := Run(disk, cfg, hook, turns);
    hide Run;
    SwapBacksUp(s.disk, hook, t.luck);
    if Binary !in s.disk {
      SwapKeepsBackup(s.disk, hook, t.luck);
    }
    hide Swapped, NextBackoff, TimeAsleep;
  }

  lemma OneMoreTurn(disk: Disk, cfg: Config, hook: Hook, turns: seq<Turn>, t: Turn)
    ensures Run(disk, cfg, hook, turns + [t]) == Step(Run(disk, cfg, hook, turns), cfg, hook, t)
  {
    assert (turns + [t])[..|turns|] == turns;
    hide Step;
  }

  lemma SwapKeepsBackup(disk: Disk, hook: Hook, luck: SwapLuck)
    requires Binary !in disk && Swapped(disk, hook, luck).1
    ensures var after := Swapped(disk, hook, luck).0;
            (Backup in after <==> Backup in disk) && (Backup in disk ==> after[Backup] == disk[Backup])
  {
  }

  /** Without a successful swap the binary stays as it is, whatever the agent does. */
  lemma NoUpdateNoChange(disk: Disk, cfg: Config, hook: Hook, turns: seq<Turn>, t: Turn)
    requires CopiesAtomic(t)
    requires var s := Run(disk, cfg, hook, turns); Staged in s.disk ==> !Swapped(s.disk, hook, t.luck).1
    ensures var before, after := Run(disk, cfg, hook, turns).disk, Run(disk, cfg, hook, turns + [t]).disk;
            (Binary in after <==> Binary in before) && (Binary in before ==> after[Binary] == before[Binary])
  {
    NeverOnTrialAtTop(disk, cfg, hook, turns);
    OneMoreTurn(disk, cfg, hook, turns, t);
    var s := Run(disk, cfg, hook, turns);
    hide Run;
    if !s.halted {
      BinaryMovesOnlyBy(s, cfg, hook, t);
    }
  }

  /** How long the loop pauses after a turn: not at all after a clean run of at least base, base after
      a shorter one or a rolled-back update, and the backoff, if it is positive, after any other crash. */
  lemma TurnPauses(disk: Disk, cfg: Config, hook: Hook, turns: seq<Turn>, t: Turn)
    requires !Run(disk, cfg, hook, turns).halted && !t.stop && !t.cancelled
    ensures var before, after := Run(disk, cfg, hook, turns), Run(disk, cfg, hook, turns + [t]);
            && after.turns == before.turns + 1
            && after.elapsed == before.elapsed + t.ran + (if after.slept > 0 then after.slept else 0)
            && if t.clean then after.backoff == cfg.base && after.slept == (if t.ran < cfg.base then cfg.base else 0)
               else if Staged in before.disk && Swapped(before.disk, hook, t.luck).1 && t.ran < cfg.trial
               then after.backoff == after.slept == cfg.base
               else after.slept == after.backoff
  {
    NeverOnTrialAtTop(disk, cfg, hook, turns);
    OneMoreTurn(disk, cfg, hook, turns, t);
    hide Run, Swapped, AfterRun, RolledBack, NextBackoff;
  }

  /** The loop has returned exactly if it was asked to stop or was cancelled. */
  lemma {:induction false} HaltedExactly(disk: Disk, cfg: Config, hook: Hook, turns: seq<Turn>)
    ensures Run(disk, cfg, hook, turns).halted <==> exists t | t in turns :: t.stop || t.cancelled
    decreases |turns|
  {
    if turns != [] {
      var front, t := turns[..|turns| - 1], turns[|turns| - 1];
      HaltedExactly(disk, cfg, hook, front);
      assert turns == front + [t];
      hide SwapPhase, AfterRun, RolledBack, NextBackoff, TimeAsleep;
    }
  }

  // ---- pacing -------------------------------------------------------------------------

  function Pow2(k: nat): nat {
    if k == 0 then 1 else 2 * Pow2(k - 1)
  }

  /** The crashes without rollback at the end of the run, with nothing else between them. */
  function CrashStreak(disk: Disk, cfg: Config, hook: Hook, turns: seq<Turn>): nat
    decreases |turns|
  {
    if turns == [] then 0
    else
      var front, t := turns[..|turns| - 1], turns[|turns| - 1];
      var s := Run(disk, cfg, hook, front);
      if s.halted || t.stop || t.cancelled then CrashStreak(disk, cfg, hook, front)
      else if t.clean || RollsBack(s, cfg, hook, t) then 0
      else 1 + CrashStreak(disk, cfg, hook, front)
  }

  /** Doubling a duration of the configuration stays within an int64. */
  predicate NoOverflow(cfg: Config) {
    2 * cfg.base <= MAX_I64 && 2 * cfg.max <= MAX_I64
  }

  /** min(base * 2^k, max), and base before the first crash. */
  function BackoffLaw(cfg: Config, k: nat): nat {
    if k == 0 then cfg.base
    else if cfg.base * Pow2(k) > cfg.max then cfg.max
    else cfg.base * Pow2(k)
  }

  /** After k consecutive ordinary crashes the loop has last slept min(base * 2^k, max). */
  ghost predicate Doubled(disk: Disk, cfg: Config, hook: Hook, turns: seq<Turn>) {
    var s, k := Run(disk, cfg, hook, turns), CrashStreak(disk, cfg, hook, turns);
    s.backoff == BackoffLaw(cfg, k) && (k > 0 ==> s.slept == s.backoff)
  }

  lemma NextBackoffCases(cur: I64, max: Duration)
    requires cur >= 0
    ensures 2 * cur <= MAX_I64 ==> NextBackoff(cur, max) == if 2 * cur > max then max else 2 * cur
    ensures 2 * cur > MAX_I64 ==> NextBackoff(cur, max) < 0
  {
  }

  lemma LawContinues(cfg: Config, k: nat)
    requires NoOverflow(cfg)
    ensures BackoffLaw(cfg, k) <= MAX_I64 && NextBackoff(BackoffLaw(cfg, k), cfg.max) == BackoffLaw(cfg, k + 1)
  {
    assert cfg.base * Pow2(k + 1) == 2 * (cfg.base * Pow2(k)) && cfg.base * Pow2(0) == cfg.base;
    assert BackoffLaw(cfg, k) <= cfg.base || BackoffLaw(cfg, k) <= cfg.max;
    NextBackoffCases(BackoffLaw(cfg, k), cfg.max);
    hide NextBackoff, Pow2;
  }

  lemma {:induction false} BackoffDoubles(disk: Disk, cfg: Config, hook: Hook, turns: seq<Turn>)
    requires NoOverflow(cfg)
    ensures Doubled(disk, cfg, hook, turns)
    decreases |turns|
  {
    if turns != [] {
      var front := turns[..|turns| - 1];
      BackoffDoubles(disk, cfg, hook, front);
      LawContinues(cfg, CrashStreak(disk, cfg, hook, front));
      assert BackoffLaw(cfg, 0) == cfg.base;
      hide SwapPhase, RolledBack, AfterRun, BackoffLaw, NextBackoff, TimeAsleep, NoOverflow;
    }
  }

  /** An agent that crashes at once, with nothing staged. */
  const CRASH := Turn(false, SwapLuck(true, Done, true, Done, {}), 0, false, false, map[], Done)

  function Crashes(n: nat): seq<Turn> {
    seq(n, _ => CRASH)
  }

  /** The backoff after n crashes and nothing else. */
  function BackoffAfter(cfg: Config, n: nat): I64 {
    if n == 0 then cfg.base else NextBackoff(BackoffAfter(cfg, n - 1), cfg.max)
  }

  /** Crash after crash on an empty disk: nothing is swapped, so the backoff is doubled each time. */
  lemma {:induction false} CrashesRun(cfg: Config, n: nat)
    ensures var s := Run(map[], cfg, None, Crashes(n));
            && s.disk == map[] && !s.halted && !s.onTrial && s.backoff == BackoffAfter(cfg, n)
            && CrashStreak(map[], cfg, None, Crashes(n)) == n
  {
    if n > 0 {
      assert Crashes(n)[..n - 1] == Crashes(n - 1);
      CrashesRun(cfg, n - 1);
      hide NextBackoff, TimeAsleep;
      assert AfterRun(map[], map[]) == map[];
    }
  }

  /** From the n-th crash on, some backoff comes out negative. */
  lemma {:induction false} SomeBackoffNegative(cfg: Config, n: nat) returns (m: nat)
    requires 2 * cfg.max > MAX_I64 && BackoffAfter(cfg, n) > 0
    ensures BackoffAfter(cfg, m) < 0
    decreases MAX_I64 - BackoffAfter(cfg, n)
  {
    var cur := BackoffAfter(cfg, n);
    NextBackoffCases(cur, cfg.max);
    hide NextBackoff;
    if 2 * cur > MAX_I64 {
      return n + 1;
    }
    m := SomeBackoffNegative(cfg, n + 1);
  }

  /** The law breaks after some number of crashes, with a negative duration to sleep. */
  lemma OverflowBreaksLaw(cfg: Config) returns (m: nat)
    requires cfg.base > 0 && !NoOverflow(cfg)
    ensures BackoffAfter(cfg, m) < 0 && !Doubled(map[], cfg, None, Crashes(m))
  {
    if 2 * cfg.base > MAX_I64 {
      NextBackoffCases(cfg.base, cfg.max);
      m := 1;
      assert BackoffAfter(cfg, 0) == cfg.base;
    } else {
      m := SomeBackoffNegative(cfg, 0);
    }
    CrashesRun(cfg, m);
    hide Run, CrashStreak, BackoffLaw, NextBackoff;
  }

  /** The backoff law holds on every run if and only if doubling base or max cannot overflow: beyond
      about 146 years the doubled duration turns negative and the loop does not sleep at all. */
  lemma BackoffDoublesExactly(cfg: Config)
    requires cfg.base > 0
    ensures (forall disk, hook, turns :: Doubled(disk, cfg, hook, turns)) <==> NoOverflow(cfg)
  {
    hide Doubled;
    if NoOverflow(cfg) {
      forall disk, hook, turns ensures Doubled(disk, cfg, hook, turns) {
        BackoffDoubles(disk, cfg, hook, turns);
      }
    } else {
      var m := OverflowBreaksLaw(cfg);
    }
  }

  function Min(a: nat, b: nat): nat {
    if a < b then a else b
  }

  lemma OneMore(n: nat, k: nat)
    ensures (n + 1) * k == n * k + k
  {
  }

  /** The backoff lies between the smaller and the larger of base and max. */
  predicate Paced(backoff: I64, cfg: Config) {
    Min(cfg.base, cfg.max) <= backoff && (backoff <= cfg.base || backoff <= cfg.max)
  }

  lemma NextPaced(backoff: I64, cfg: Config)
    requires NoOverflow(cfg) && Paced(backoff, cfg)
    ensures Paced(NextBackoff(backoff, cfg.max), cfg) && Paced(cfg.base, cfg)
  {
    NextBackoffCases(backoff, cfg.max);
    hide NextBackoff;
  }

  lemma StepTakesTime(s: Sup, cfg: Config, hook: Hook, t: Turn)
    requires NoOverflow(cfg) && Paced(s.backoff, cfg)
    ensures var after, least := Step(s, cfg, hook, t), Min(cfg.base, cfg.max);
            && Paced(after.backoff, cfg)
            && if after.turns == s.turns then after.elapsed >= s.elapsed
               else after.turns == s.turns + 1 && after.elapsed >= s.elapsed + least
  {
    NextPaced(s.backoff, cfg);
    hide SwapPhase, RolledBack, AfterRun, NextBackoff;
  }

  /** No busy loop: n completed turns take at least n times the smaller of base and max, that
      is n times base under any sensible configuration. */
  lemma {:induction false} TurnsTakeTime(disk: Disk, cfg: Config, hook: Hook, turns: seq<Turn>)
    requires NoOverflow(cfg)
    ensures var s := Run(disk, cfg, hook, turns);
            Paced(s.backoff, cfg) && s.elapsed >= s.turns * Min(cfg.base, cfg.max)
    ensures cfg.base <= cfg.max ==> Run(disk, cfg, hook, turns).elapsed >= Run(disk, cfg, hook, turns).turns * cfg.base
    decreases |turns|
  {
    if turns != [] {
      var front, t := turns[..|turns| - 1], turns[|turns| - 1];
      TurnsTakeTime(disk, cfg, hook, front);
      var s := Run(disk, cfg, hook, front);
      StepTakesTime(s, cfg, hook, t);
      OneMore(s.turns, Min(cfg.base, cfg.max));
      hide Step, Paced, NoOverflow;
    }
    assert cfg.base <= cfg.max ==> Min(cfg.base, cfg.max) == cfg.base;
    hide Min, Paced;
  }

  /** A completed turn takes at least the smaller of base and max. */
  ghost predicate TurnPaced(disk: Disk, cfg: Config, hook: Hook, turns: seq<Turn>, t: Turn) {
    var s := Run(disk, cfg, hook, turns);
    var after := Step(s, cfg, hook, t);
    after.turns > s.turns ==> after.elapsed >= s.elapsed + Min(cfg.base, cfg.max)
  }

  lemma NegativeBackoffSpins(cfg: Config, m: nat)
    requires cfg.base > 0 && cfg.max > 0 && BackoffAfter(cfg, m) < 0
    ensures m > 0 && !TurnPaced(map[], cfg, None, Crashes(m - 1), CRASH)
  {
    CrashesRun(cfg, m - 1);
    hide Run, CrashStreak, NextBackoff;
    assert AfterRun(map[], map[]) == map[];
  }

  /** No busy loop, exactly: every turn of every run takes its time if and only if doubling base
      or max cannot overflow. */
  lemma TurnsPacedExactly(cfg: Config)
    requires cfg.base > 0 && cfg.max > 0
    ensures (forall disk, hook, turns, t :: TurnPaced(disk, cfg, hook, turns, t)) <==> NoOverflow(cfg)
  {
    if NoOverflow(cfg) {
      forall disk, hook, turns, t ensures TurnPaced(disk, cfg, hook, turns, t) {
        TurnsTakeTime(disk, cfg, hook, turns);
        StepTakesTime(Run(disk, cfg, hook, turns), cfg, hook, t);
        hide Run, Step, Min, Paced;
      }
    } else {
      var m := OverflowBreaksLaw(cfg);
      NegativeBackoffSpins(cfg, m);
    }
    hide TurnPaced;
  }
}
