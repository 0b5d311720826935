/** The workload generator: a pattern of (active, idle) durations in
    milliseconds becomes a list of (start, duration) lines, with the start
    time accumulated from a fixed initial offset. */
module Workload {

  /** One task of a pattern: how long it is active, then how long the device idles. */
  datatype Task = Task(active: int, idle: int)

  /** One generated line: task start time and active duration. */
  datatype Line = Line(start: int, duration: int)

  /** The simulator starts its clock this many milliseconds in. */
  const FirstStart: int := 2000

  /** The lines generated from `pattern` when the first task starts at `start`. */
  function Schedule(pattern: seq<Task>, start: int): (r: seq<Line>)
    ensures |r| == |pattern|
  {
    if pattern == [] then []
    else [Line(start, pattern[0].active)] + Schedule(pattern[1..], start + pattern[0].active + pattern[0].idle)
  }

  /** One line per task in pattern order: the first starts at `start`, each
      carries its task's active time, and each next start is the previous
      start plus that task's active and idle time. */
  lemma {:induction false} ScheduleShape(pattern: seq<Task>, start: int)
    ensures Schedule(pattern, start) != [] ==> Schedule(pattern, start)[0].start == start
    ensures forall k :: 0 <= k < |pattern| ==> Schedule(pattern, start)[k].duration == pattern[k].active
    ensures forall k :: 0 <= k < |pattern| - 1 ==>
      Schedule(pattern, start)[k + 1].start == Schedule(pattern, start)[k].start + pattern[k].active + pattern[k].idle
  {
    if pattern != [] {
      var next := start + pattern[0].active + pattern[0].idle;
      ScheduleShape(pattern[1..], next);
      var r, rest := Schedule(pattern, start), Schedule(pattern[1..], next);
      assert r == [Line(start, pattern[0].active)] + rest;
      assert forall k :: 1 <= k < |pattern| ==> r[k] == rest[k - 1];
    }
  }

  lemma ScheduleStep(pattern: seq<Task>, start: int)
    requires pattern != []
    ensures Schedule(pattern, start)
         == [Line(start, pattern[0].active)] + Schedule(pattern[1..], start + pattern[0].active + pattern[0].idle)
  {
  }

  /** The generator loop: write a line, then advance the clock by the task's
      active and idle time. */
  method GenerateFile(pattern: seq<Task>) returns (lines: seq<Line>)
    ensures lines == Schedule(pattern, FirstStart)
  {
    lines := [];
    var current := FirstStart;
    var i := 0;
    while i < |pattern|
      invariant 0 <= i <= |pattern|
      invariant lines + Schedule(pattern[i..], current) == Schedule(pattern, FirstStart)
    {
      ScheduleStep(pattern[i..], current);
      assert pattern[i..][1..] == pattern[i + 1..];
      assert lines + Schedule(pattern[i..], current)
          == (lines + [Line(current, pattern[i].active)])
             + Schedule(pattern[i + 1..], current + pattern[i].active + pattern[i].idle);
      lines := lines + [Line(current, pattern[i].active)];
      current := current + pattern[i].active + pattern[i].idle;
      i := i + 1;
    }
  }

  /** With non-negative durations, start times never decrease. */
  lemma {:induction false} StartsNonDecreasing(pattern: seq<Task>, start: int, j: nat, k: nat)
    requires forall m :: 0 <= m < |pattern| ==> pattern[m].active >= 0 && pattern[m].idle >= 0
    requires j <= k < |pattern|
    ensures Schedule(pattern, start)[j].start <= Schedule(pattern, start)[k].start
  {
    if j < k {
      StartsNonDecreasing(pattern, start, j, k - 1);
      ScheduleShape(pattern, start);
    }
  }

  /** The idle duration of the final task never reaches the output. */
  lemma {:induction false} LastIdleIgnored(pattern: seq<Task>, start: int, active: int, idle1: int, idle2: int)
    ensures Schedule(pattern + [Task(active, idle1)], start) == Schedule(pattern + [Task(active, idle2)], start)
  {
    if pattern == [] {
      assert Schedule([Task(active, idle1)][1..], start + active + idle1) == [];
      assert Schedule([Task(active, idle2)][1..], start + active + idle2) == [];
    } else {
      var next := start + pattern[0].active + pattern[0].idle;
      LastIdleIgnored(pattern[1..], next, active, idle1, idle2);
      assert (pattern + [Task(active, idle1)])[1..] == pattern[1..] + [Task(active, idle1)];
      assert (pattern + [Task(active, idle2)])[1..] == pattern[1..] + [Task(active, idle2)];
    }
  }

  /** The boundary-hover pattern: fifty cycles of a long and a short idle. */
  method HoverData() returns (h: seq<Task>)
    ensures |h| == 100
    ensures forall k :: 0 <= k < |h| ==> h[k] == if k % 2 == 0 then Task(10, 120000) else Task(10, 4)
  {
    h := [];
    var n := 0;
    while n < 50
      invariant 0 <= n <= 50
      invariant |h| == 2 * n
      invariant forall k :: 0 <= k < |h| ==> h[k] == if k % 2 == 0 then Task(10, 120000) else Task(10, 4)
    {
      h := h + [Task(10, 120000)];
      h := h + [Task(10, 4)];
      n := n + 1;
    }
  }
}
