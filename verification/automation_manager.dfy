/**
 * Automation state: the macro recorder (a recording flag gating appends to
 * the action list, with the delay since the previous action) and the task
 * scheduler (a table of tasks, a running flag, and the periodic check that
 * decides which tasks run). Clock readings are the `now` parameters.
 */
module Automation {
  import opened Wrappers

  // ---------------------------------------------------------------- macro recorder

  /** One recorded action: its type, its parameters, and the delay since the previous one. */
  datatype RecordedAction = RecordedAction(actionType: string, params: map<string, string>, delay: int)

  /** The sum of the recorded delays. */
  function TotalDelay(actions: seq<RecordedAction>): int
    decreases |actions|
  {
    if |actions| == 0 then 0 else TotalDelay(actions[..|actions| - 1]) + actions[|actions| - 1].delay
  }

  class MacroRecorder {
    var actions: seq<RecordedAction>
    var recording: bool
    var currentTimestamp: Option<int>
    /** When the current recording started. */
    ghost var startedAt: int

    /**
     * A timestamp is kept exactly while recording, and it is the start time
     * plus the delays recorded so far: playing the delays back replays the
     * time that elapsed.
     */
    ghost predicate Valid()
      reads this
    {
      && (recording <==> currentTimestamp.Some?)
      && (recording ==> currentTimestamp.value == startedAt + TotalDelay(actions))
    }

    constructor ()
      ensures actions == [] && !recording && currentTimestamp == None && Valid()
    {
      actions := [];
      recording := false;
      currentTimestamp := None;
      startedAt := 0;
    }

    /** `start_recording`: the action list is emptied and recording starts at `now`. */
    method StartRecording(now: int)
      modifies this
      ensures actions == [] && recording && currentTimestamp == Some(now) && Valid()
    {
      actions := [];
      recording := true;
      currentTimestamp := Some(now);
      startedAt := now;
    }

    /** `stop_recording`: the flag and the timestamp are cleared; the actions stay. */
    method StopRecording()
      modifies this
      ensures actions == old(actions) && !recording && currentTimestamp == None && Valid()
    {
      recording := false;
      currentTimestamp := None;
    }

    /**
     * `record_action`: nothing happens unless recording; otherwise exactly one
     * action is appended, with the time since the previous one as its delay.
     */
    method RecordAction(actionType: string, params: map<string, string>, now: int)
      requires Valid()
      modifies this
      ensures !old(recording) ==> actions == old(actions) && currentTimestamp == old(currentTimestamp)
      ensures old(recording) ==>
        && actions == old(actions) + [RecordedAction(actionType, params, now - old(currentTimestamp).value)]
        && currentTimestamp == Some(now)
      ensures recording == old(recording) && Valid()
      ensures recording ==> currentTimestamp.value == startedAt + TotalDelay(actions)
    {
      if !recording {
        return;
      }
      var delay := now - currentTimestamp.value;
      actions := actions + [RecordedAction(actionType, params, delay)];
      assert actions[..|actions| - 1] == old(actions);
      currentTimestamp := Some(now);
    }
  }

  /** After `stop_recording`, recording an action changes nothing. */
  method StoppedRecorderIgnoresActions(m: MacroRecorder, actionType: string, params: map<string, string>,
                                       now: int)
    requires m.Valid()
    modifies m
    ensures m.actions == old(m.actions) && !m.recording
  {
    m.StopRecording();
    m.RecordAction(actionType, params, now);
  }

  // ---------------------------------------------------------------- scheduler

  /** A schedule: an optional interval in seconds, an optional cron string. */
  datatype Schedule = Schedule(interval: Option<int>, cron: Option<string>)

  /** A scheduled task; `lastRun` is None until it first runs. */
  datatype Task = Task(schedule: Schedule, action: string, lastRun: Option<int>)

  /**
   * The should-run rule: a task that never ran runs; one with an interval
   * reruns once that many seconds have passed; any other one (cron only)
   * does not rerun.
   */
  predicate ShouldRun(t: Task, now: int)
  {
    if t.lastRun.None? then true
    else if t.schedule.interval.Some? then now - t.lastRun.value >= t.schedule.interval.value
    else false
  }

  /** The table after a check at `now`: the tasks that should run get `lastRun := now`. */
  function RunDue(tasks: map<string, Task>, now: int): (r: map<string, Task>)
    ensures r.Keys == tasks.Keys
    ensures forall id :: id in tasks ==>
      && r[id].schedule == tasks[id].schedule && r[id].action == tasks[id].action
      && (ShouldRun(tasks[id], now) ==> r[id].lastRun == Some(now))
      && (!ShouldRun(tasks[id], now) ==> r[id].lastRun == tasks[id].lastRun)
  {
    map id | id in tasks :: if ShouldRun(tasks[id], now) then tasks[id].(lastRun := Some(now)) else tasks[id]
  }

  /** A task with an interval that ran at `last` reruns exactly from `last + interval` on. */
  lemma IntervalRerun(t: Task, last: int, now: int)
    requires t.lastRun == Some(last) && t.schedule.interval.Some?
    ensures ShouldRun(t, now) <==> now >= last + t.schedule.interval.value
  {
  }

  /** A task without an interval runs once and never again, whatever its cron string. */
  lemma CronOnlyRunsOnce(tasks: map<string, Task>, id: string, now: int, later: int)
    requires id in tasks && tasks[id].schedule.interval.None?
    ensures ShouldRun(tasks[id], now) <==> tasks[id].lastRun.None?
    ensures !ShouldRun(RunDue(tasks, now)[id], later)
  {
  }

  /**
   * A second check at the same instant runs nothing again, unless a task's
   * interval is zero or negative.
   */
  lemma CheckTwiceSameInstant(tasks: map<string, Task>, id: string, now: int)
    requires id in tasks && ShouldRun(tasks[id], now)
    ensures ShouldRun(RunDue(tasks, now)[id], now) <==>
      tasks[id].schedule.interval.Some? && tasks[id].schedule.interval.value <= 0
  {
  }

  class AutomationManager {
    var scheduledTasks: map<string, Task>
    /** Cleared by `stop_timer`; a check does nothing once it is false. */
    var running: bool
    /** Whether a timer is armed to run the next check. */
    var timerArmed: bool

    /** A new manager is running and arms its timer. */
    constructor ()
      ensures scheduledTasks == map[] && running && timerArmed
    {
      scheduledTasks := map[];
      running := true;
      timerArmed := true;
    }

    /** `start_timer`. */
    method StartTimer()
      modifies this
      ensures timerArmed && running == old(running) && scheduledTasks == old(scheduledTasks)
    {
      timerArmed := true;
    }

    /** `stop_timer`: the flag is cleared and the timer cancelled. */
    method StopTimer()
      modifies this
      ensures !running && !timerArmed && scheduledTasks == old(scheduledTasks)
    {
      running := false;
      timerArmed := false;
    }

    /** `schedule_task`: store or overwrite the id, not yet run; other ids untouched. */
    method ScheduleTask(id: string, schedule: Schedule, action: string) returns (ok: bool)
      modifies this
      ensures ok && scheduledTasks == old(scheduledTasks)[id := Task(schedule, action, None)]
      ensures running == old(running) && timerArmed == old(timerArmed)
    {
      scheduledTasks := scheduledTasks[id := Task(schedule, action, None)];
      ok := true;
    }

    /** `remove_task`: True exactly when the id was present, and then only it goes. */
    method RemoveTask(id: string) returns (ok: bool)
      modifies this
      ensures ok <==> id in old(scheduledTasks)
      ensures scheduledTasks == old(scheduledTasks) - {id}
      ensures running == old(running) && timerArmed == old(timerArmed)
    {
      if id in scheduledTasks {
        scheduledTasks := scheduledTasks - {id};
        return true;
      }
      return false;
    }

    /**
     * `_check_scheduled_tasks` at time `now`: when stopped, nothing happens and
     * no timer is armed; else every task that should run is run (its id is in
     * `ran`) and stamped with `now`, and the timer is re-armed.
     */
    method CheckScheduledTasks(now: int) returns (ran: set<string>)
      modifies this
      ensures !old(running) ==> ran == {} && scheduledTasks == old(scheduledTasks) && timerArmed == old(timerArmed)
      ensures old(running) ==>
        && ran == (set id | id in old(scheduledTasks) && ShouldRun(old(scheduledTasks)[id], now))
        && scheduledTasks == RunDue(old(scheduledTasks), now)
        && timerArmed
      ensures running == old(running)
    {
      if !running {
        return {};
      }
      ghost var before := scheduledTasks;
      var pending := scheduledTasks.Keys;
      ran := {};
      while pending != {}
        invariant pending <= before.Keys && scheduledTasks.Keys == before.Keys
        invariant forall id :: id in pending ==> scheduledTasks[id] == before[id]
        invariant forall id :: id in before && id !in pending ==> scheduledTasks[id] == RunDue(before, now)[id]
        invariant ran == (set id | id in before && id !in pending && ShouldRun(before[id], now))
        invariant running
        decreases pending
      {
        var id :| id in pending;
        var task := scheduledTasks[id];
        if ShouldRun(task, now) {
          scheduledTasks := scheduledTasks[id := task.(lastRun := Some(now))];
          ran := ran + {id};
        }
        pending := pending - {id};
      }
      assert scheduledTasks == RunDue(before, now);
      timerArmed := true;
    }
  }
}
