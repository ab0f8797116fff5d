// The stand-alone PENDING-payment sweeper: one module-level scheduled task that
// `loadCronJob` stops and replaces from the settings, and the sweep it runs.

module ExpirePending {
  import opened Common
  import opened Store
  import CronManager

  /** The job's three settings, read with `??` defaults. */
  datatype Config = Config(enabled: bool, schedule: string, cutoffHours: Option<int>)

  function ReadConfig(settings: seq<Setting>): (c: Config)
    ensures c.enabled <==> CronManager.GetSetting(settings, "cronEnabled", "true") == "true"
  {
    Config(CronManager.Enabled(settings, "cronEnabled"),
           CronManager.GetSetting(settings, "cronSchedule", "0 * * * *"),
           ParseInt(CronManager.GetSetting(settings, "cronCutoffHours", "24")))
  }

  /** With no stored settings the job is enabled, hourly, with a 24-hour cutoff; a stored
      flag enables it only when it is exactly "true". */
  lemma ReadConfigDefaults(settings: seq<Setting>)
    ensures ReadConfig([]) == Config(true, "0 * * * *", Some(24))
    ensures CronManager.FindValue(settings, "cronEnabled").Some? ==>
              (ReadConfig(settings).enabled <==> CronManager.FindValue(settings, "cronEnabled").value == "true")
  {
    assert ParseInt("24") == Some(24) by {
      assert NatToString(24) == "24";
      ParseIntOfNatToString(24);
    }
  }

  /** The sweeper's state: the task handle last assigned (or none yet), the handles that
      were stopped, the next fresh handle, and the cutoff the live task captured. */
  datatype JobState = JobState(task: Option<nat>, stopped: set<nat>, next: nat, cutoffHours: Option<int>)

  /** The assigned task is running: assigned and not stopped since. */
  predicate Running(s: JobState) {
    s.task.Some? && s.task.value !in s.stopped
  }

  /** Every handle ever issued, except possibly the assigned one, is stopped; only issued
      handles are assigned or stopped. */
  predicate AtMostOneLive(s: JobState) {
    (s.task.Some? ==> s.task.value < s.next)
    && (forall id :: id in s.stopped ==> id < s.next)
    && forall id: nat :: id < s.next && Some(id) != s.task ==> id in s.stopped
  }

  /** How `loadCronJob` ends. */
  datatype LoadOutcome = Disabled | Scheduled | Rejected

  /** `loadCronJob`: stop the previous task, whatever the new settings; then return when
      disabled, or schedule a fresh task capturing the cutoff. An invalid schedule makes
      `cron.schedule` throw, and the variable keeps the stopped task. */
  function Reload(s: JobState, settings: seq<Setting>, valid: string -> bool): (JobState, LoadOutcome) {
    var c := ReadConfig(settings);
    var stopped := if s.task.Some? then s.stopped + {s.task.value} else s.stopped;
    if !c.enabled then (s.(stopped := stopped), Disabled)
    else if !valid(c.schedule) then (s.(stopped := stopped), Rejected)
    else (JobState(Some(s.next), stopped, s.next + 1, c.cutoffHours), Scheduled)
  }

  /** After a load the previous task is stopped in every case; exactly when enabled with a
      valid schedule a fresh task is running; otherwise nothing is. */
  lemma ReloadSpec(s: JobState, settings: seq<Setting>, valid: string -> bool)
    requires AtMostOneLive(s)
    ensures var (t, outcome) := Reload(s, settings, valid);
            && (s.task.Some? ==> s.task.value in t.stopped)
            && (Running(t) <==> outcome == Scheduled)
            && (outcome == Scheduled <==> ReadConfig(settings).enabled && valid(ReadConfig(settings).schedule))
            && (outcome == Scheduled ==> t.task == Some(s.next) && t.cutoffHours == ReadConfig(settings).cutoffHours)
            && (outcome != Scheduled ==> t.task == s.task)
  {
  }

  /** A load never leaves two tasks running. */
  lemma ReloadKeepsOneLive(s: JobState, settings: seq<Setting>, valid: string -> bool)
    requires AtMostOneLive(s)
    ensures AtMostOneLive(Reload(s, settings, valid).0)
  {
    var (t, outcome) := Reload(s, settings, valid);
    forall id: nat | id < t.next && Some(id) != t.task ensures id in t.stopped {
      if outcome == Scheduled && id < s.next {
        assert id in s.stopped || Some(id) == s.task;
      }
    }
  }

  /** The module's `scheduledTask` variable together with the node-cron handles. */
  class Sweeper {
    var task: Option<nat>
    var stopped: set<nat>
    var nextHandle: nat
    var cutoffHours: Option<int>

    function State(): JobState
      reads this
    {
      JobState(task, stopped, nextHandle, cutoffHours)
    }

    predicate Valid()
      reads this
    {
      AtMostOneLive(State())
    }

    constructor()
      ensures Valid() && !Running(State()) && State() == JobState(None, {}, 0, None)
    {
      task, stopped, nextHandle, cutoffHours := None, {}, 0, None;
    }

    /** `loadCronJob`, with schedule validity as a parameter. */
    method LoadCronJob(settings: seq<Setting>, valid: string -> bool) returns (outcome: LoadOutcome)
      requires Valid()
      modifies this
      ensures Valid()
      ensures (State(), outcome) == Reload(old(State()), settings, valid)
    {
      ReloadKeepsOneLive(State(), settings, valid);
      var c := ReadConfig(settings);
      if task.Some? {
        stopped := stopped + {task.value};
      }
      if !c.enabled {
        return Disabled;
      }
      if !valid(c.schedule) {
        return Rejected;
      }
      task, nextHandle, cutoffHours := Some(nextHandle), nextHandle + 1, c.cutoffHours;
      outcome := Scheduled;
    }

    /** A tick of the running task: the PENDING records created before now minus the
        captured cutoff become FAILED; an unparsable cutoff makes an invalid date, the
        store rejects it and the error is caught, so nothing changes. */
    method Tick(db: Db, now: int) returns (count: nat)
      requires Valid() && db.Valid() && Running(State())
      modifies db`payments
      ensures db.Valid()
      ensures db.payments == match cutoffHours
                             case Some(h) => ExpireStale(old(db.payments), now - h * HourMs)
                             case None => old(db.payments)
      ensures count == match cutoffHours
                       case Some(h) => StaleCount(old(db.payments), now - h * HourMs)
                       case None => 0
    {
      count := 0;
      if cutoffHours.Some? {
        count := db.ExpirePendingBefore(now - cutoffHours.value * HourMs);
      }
    }
  }
}
