/** The agent's policy engine: first blocking rule wins, with time windows on the weekly cycle. */
module PolicyEngine {

  const DAY := 1440
  const WEEK := 10080

  type TimeOfDay = t: int | 0 <= t < DAY
  type Weekday = d: int | 0 <= d < 7

  /** The weekday (Sunday is 0) and minute of the day of a trusted instant. */
  datatype Moment = Moment(weekday: Weekday, minute: TimeOfDay)

  type Days = s: seq<bool> | |s| == 7 witness [false, false, false, false, false, false, false]

  datatype RuleType = Unspecified | AppTimeBlock | AppBlockAlways | NetworkRule

  datatype Rule = Rule(id: string, kind: RuleType, target: string, start: TimeOfDay, end: TimeOfDay, activeDays: Days)

  datatype Decision = Allowed | Blocked(ruleId: string)

  /** How process names are folded before comparison (trimming and lower-casing). */
  type Folding = string -> string

  // ---- the engine ---------------------------------------------------------------------

  /** What follows the last '/' or '\'. */
  function BaseName(p: string): string {
    if p == [] then []
    else if '/' in p[1..] || '\\' in p[1..] then BaseName(p[1..])
    else if p[0] == '/' || p[0] == '\\' then p[1..]
    else p
  }

  predicate MatchesTarget(fold: Folding, process: string, target: string) {
    target != "" && (fold(process) == fold(target) || BaseName(fold(process)) == BaseName(fold(target)))
  }

  predicate InWindow(now: Moment, start: TimeOfDay, end: TimeOfDay, days: Days) {
    if start == end then false
    else
      var t, wd := now.minute, now.weekday;
      var prev := (wd + 6) % 7;
      if start < end then days[wd] && t >= start && t < end
      else (days[wd] && t >= start) || (days[prev] && t < end)
  }

  function EvaluateProcess(fold: Folding, rules: seq<Rule>, process: string, now: Moment): Decision {
    if rules == [] then Allowed
    else
      var r := rules[0];
      if MatchesTarget(fold, process, r.target)
         && (r.kind == AppBlockAlways || (r.kind == AppTimeBlock && InWindow(now, r.start, r.end, r.activeDays)))
      then Blocked(r.id)
      else EvaluateProcess(fold, rules[1..], process, now)
  }

  function EvaluateAlways(fold: Folding, rules: seq<Rule>, process: string): Decision {
    if rules == [] then Allowed
    else if rules[0].kind == AppBlockAlways && MatchesTarget(fold, process, rules[0].target) then Blocked(rules[0].id)
    else EvaluateAlways(fold, rules[1..], process)
  }

  // ---- the weekly cycle ---------------------------------------------------------------

  /** Minute of the week, 0 at Sunday midnight. */
  function WeekMinute(now: Moment): int {
    now.weekday * DAY + now.minute
  }

  /** The interval of the given length that starts at `from` on the 10080-minute cycle contains m. */
  predicate OnCycle(from: int, length: int, m: int) {
    (m - from) % WEEK < length
  }

  /** The active interval of day d: it starts at the start time of that day and lasts until the
      end time comes round again, so an overnight window runs into the next day. */
  predicate DayCovers(r: Rule, d: Weekday, now: Moment) {
    r.activeDays[d] && OnCycle(d * DAY + r.start, (r.end - r.start) % DAY, WeekMinute(now))
  }

  ghost predicate Forbids(r: Rule, now: Moment) {
    r.kind == AppBlockAlways || (r.kind == AppTimeBlock && exists d: Weekday :: DayCovers(r, d, now))
  }

  lemma DayCoversCases(r: Rule, d: Weekday, now: Moment)
    ensures DayCovers(r, d, now) <==>
              r.activeDays[d]
              && ((d == now.weekday && r.start <= now.minute
                   && (r.end < r.start || now.minute < r.end) && r.start != r.end)
                  || (d == (now.weekday + 6) % 7 && r.end < r.start && now.minute < r.end))
  {
    var behind := (now.weekday - d) % 7;
    var offset := now.minute - r.start;
    assert WeekMinute(now) - (d * DAY + r.start) == (now.weekday - d) * DAY + offset;
    assert (now.weekday - d == behind || now.weekday - d == behind - 7);
    assert behind == 1 <==> d == (now.weekday + 6) % 7;
    assert (r.end - r.start) % DAY == if r.end >= r.start then r.end - r.start else r.end - r.start + DAY;
    if behind == 0 && offset < 0 {
      assert ((now.weekday - d) * DAY + offset) % WEEK == WEEK + offset;
    } else {
      assert ((now.weekday - d) * DAY + offset) % WEEK == behind * DAY + offset;
    }
  }

  /** The window test is membership in the weekly intervals of the active days. */
  lemma WindowIsWeekly(r: Rule, now: Moment)
    ensures InWindow(now, r.start, r.end, r.activeDays) <==> exists d: Weekday :: DayCovers(r, d, now)
  {
    var prev: Weekday := (now.weekday + 6) % 7;
    DayCoversCases(r, now.weekday, now);
    DayCoversCases(r, prev, now);
    forall d: Weekday | DayCovers(r, d, now) ensures InWindow(now, r.start, r.end, r.activeDays) {
      DayCoversCases(r, d, now);
    }
  }

  /** Position i holds the first rule that matches the process and forbids it at this moment. */
  ghost predicate FirstForbidding(fold: Folding, rules: seq<Rule>, process: string, now: Moment, i: int) {
    && 0 <= i < |rules|
    && MatchesTarget(fold, process, rules[i].target) && Forbids(rules[i], now)
    && forall j | 0 <= j < i :: !(MatchesTarget(fold, process, rules[j].target) && Forbids(rules[j], now))
  }

  /** The engine blocks with exactly the first matching rule that forbids the process now, and
      allows the process exactly when there is none. */
  lemma {:induction false} BlocksWithFirstRule(fold: Folding, rules: seq<Rule>, process: string, now: Moment)
    ensures match EvaluateProcess(fold, rules, process, now)
            case Blocked(id) => exists i :: FirstForbidding(fold, rules, process, now, i) && rules[i].id == id
            case Allowed => forall r | r in rules :: !(MatchesTarget(fold, process, r.target) && Forbids(r, now))
  {
    if rules != [] {
      WindowIsWeekly(rules[0], now);
      var tail := rules[1..];
      if MatchesTarget(fold, process, rules[0].target) && Forbids(rules[0], now) {
        assert FirstForbidding(fold, rules, process, now, 0);
      } else {
        BlocksWithFirstRule(fold, tail, process, now);
        if EvaluateProcess(fold, tail, process, now).Blocked? {
          var i :| FirstForbidding(fold, tail, process, now, i)
                   && tail[i].id == EvaluateProcess(fold, tail, process, now).ruleId;
          assert FirstForbidding(fold, rules, process, now, i + 1);
        }
      }
    }
  }

  /** A process the clock-free evaluation blocks is blocked at every moment: losing the clock
      never makes the agent block something new. */
  lemma {:induction false} AlwaysImpliesEveryMoment(fold: Folding, rules: seq<Rule>, process: string, now: Moment)
    ensures EvaluateAlways(fold, rules, process).Blocked? ==> EvaluateProcess(fold, rules, process, now).Blocked?
    ensures EvaluateAlways(fold, rules, process).Blocked? <==>
              exists r :: r in rules && r.kind == AppBlockAlways && MatchesTarget(fold, process, r.target)
  {
    if rules != [] {
      AlwaysImpliesEveryMoment(fold, rules[1..], process, now);
      assert rules == [rules[0]] + rules[1..];
    }
  }

  // ---- what a rule's target matches ---------------------------------------------------

  predicate Separator(c: char) {
    c == '/' || c == '\\'
  }

  /** The path is a directory part, empty or ending in a separator, and a last component without one. */
  predicate SplitsInto(path: string, directory: string, last: string) {
    && path == directory + last
    && (directory == "" || Separator(directory[|directory| - 1]))
    && forall i | 0 <= i < |last| :: !Separator(last[i])
  }

  /** The base name is the last component, and the only one. */
  lemma {:induction false} BaseNameExactly(path: string, directory: string, last: string)
    requires SplitsInto(path, directory, last)
    ensures BaseName(path) == last
  {
    if directory != "" {
      assert path[1..] == directory[1..] + last;
      if |directory| > 1 {
        assert directory[1..][|directory| - 2] == directory[|directory| - 1];
        assert directory[|directory| - 1] in path[1..];
        BaseNameExactly(path[1..], directory[1..], last);
      } else {
        assert path[1..] == last;
      }
    } else if path != [] {
      assert forall c | c in path[1..] :: !Separator(c);
    }
  }

  lemma {:induction false} PathSplits(path: string) returns (directory: string)
    ensures SplitsInto(path, directory, BaseName(path))
  {
    directory := "";
    if path != [] {
      if '/' in path[1..] || '\\' in path[1..] {
        var rest := PathSplits(path[1..]);
        directory := [path[0]] + rest;
        assert path == [path[0]] + path[1..];
      } else if Separator(path[0]) {
        directory := [path[0]];
      }
    }
  }

  /** A target matches a process if and only if it is not empty and, after folding, both are the same
      or have the same last component. */
  lemma MatchesExactly(fold: Folding, process: string, target: string)
    ensures MatchesTarget(fold, process, target) <==>
              && target != ""
              && (fold(process) == fold(target)
                  || exists d, e, last :: SplitsInto(fold(process), d, last) && SplitsInto(fold(target), e, last))
  {
    if MatchesTarget(fold, process, target) {
      var d := PathSplits(fold(process));
      var e := PathSplits(fold(target));
    }
    forall d, e, last | SplitsInto(fold(process), d, last) && SplitsInto(fold(target), e, last)
      ensures BaseName(fold(process)) == BaseName(fold(target))
    {
      BaseNameExactly(fold(process), d, last);
      BaseNameExactly(fold(target), e, last);
    }
    hide SplitsInto, BaseName;
  }
}
