/** The cron registry: a name-to-task map, in insertion order as a JavaScript Map keeps
    it, with loading from the settings, stopping, status, cleanup of corrupted entries and
    manual runs of the five jobs over the store. A scheduled task is a handle; stopping
    it records its id. Whether a schedule is valid is a parameter. */
module CronManager {
  import opened Common
  import opened Store

  /** A scheduled task; `stoppable` says whether it has a `stop` function. */
  datatype Handle = Handle(id: nat, stoppable: bool)

  datatype TaskInfo = TaskInfo(task: Option<Handle>, schedule: string, running: bool,
                               lastRun: Option<int>, description: string)

  /** `taskInfo && taskInfo.task && typeof taskInfo.task.stop === 'function'`. */
  predicate ValidTask(info: TaskInfo) {
    info.task.Some? && info.task.value.stoppable
  }

  // ---------------------------------------------------------------- settings

  /** `settings.find(s => s.key === key)`: the position of the first record with the key. */
  function FindKey(settings: seq<Setting>, key: string): (r: Option<nat>)
    ensures r.None? ==> forall i :: 0 <= i < |settings| ==> settings[i].key != key
    ensures r.Some? ==> r.value < |settings| && settings[r.value].key == key
                        && forall j :: 0 <= j < r.value ==> settings[j].key != key
    decreases |settings|
  {
    if |settings| == 0 then None
    else if settings[0].key == key then Some(0)
    else
      var r := FindKey(settings[1..], key);
      if r.Some? then Some(r.value + 1) else None
  }

  /** `settings.find(s => s.key === key)?.value`: the first record's value. */
  function FindValue(settings: seq<Setting>, key: string): Option<string> {
    match FindKey(settings, key)
    case None => None
    case Some(i) => Some(settings[i].value)
  }

  /** `getSetting`: the stored value when there is one (even ""), else the default. */
  function GetSetting(settings: seq<Setting>, key: string, default: string): string {
    Coalesce(FindValue(settings, key), default)
  }

  /** A job flag: enabled exactly when the value, "true" by default, is "true". */
  predicate Enabled(settings: seq<Setting>, key: string) {
    GetSetting(settings, key, "true") == "true"
  }

  datatype JobConfig = JobConfig(name: string, enabled: bool, schedule: string, description: string)

  const JobNames: seq<string> := ["paymentCleanup", "subscriptionExpire", "subscriptionReminder",
                                  "maintenance", "weeklyStats"]

  const JobDescriptions: seq<string> := ["Clean up expired PENDING payments", "Deactivate expired subscriptions",
                                         "Send subscription expiry reminders", "Cleanup old payment records",
                                         "Update system statistics"]

  /** The five job configurations, in order. */
  function JobConfigs(settings: seq<Setting>): (cs: seq<JobConfig>)
    ensures |cs| == |JobNames| && cs[0].name == JobNames[0] && cs[1].name == JobNames[1] && cs[2].name == JobNames[2]
    ensures cs[3].name == JobNames[3] && cs[4].name == JobNames[4]
  {
    [JobConfig(JobNames[0], Enabled(settings, "cronEnabled"),
               GetSetting(settings, "cronSchedule", "0 * * * *"), JobDescriptions[0]),
     JobConfig(JobNames[1], Enabled(settings, "subscriptionCronEnabled"),
               GetSetting(settings, "subscriptionCronScheduleExpire", "0 9 * * *"), JobDescriptions[1]),
     JobConfig(JobNames[2], Enabled(settings, "subscriptionCronEnabled"),
               GetSetting(settings, "subscriptionCronScheduleReminder", "0 9 * * *"), JobDescriptions[2]),
     JobConfig(JobNames[3], Enabled(settings, "maintenanceCronEnabled"),
               GetSetting(settings, "maintenanceCronSchedule", "0 * * * *"), JobDescriptions[3]),
     JobConfig(JobNames[4], Enabled(settings, "reportCronEnabled"),
               GetSetting(settings, "reportCronScheduleWeekly", "0 0 * * 0"), JobDescriptions[4])]
  }

  /** A stored flag decides alone; an absent flag enables the job. The expiry and reminder
      jobs share one flag. With no settings at all every job is enabled. */
  lemma JobConfigsFlags(settings: seq<Setting>, key: string)
    ensures FindValue(settings, key).Some? ==> (Enabled(settings, key) <==> FindValue(settings, key).value == "true")
    ensures FindValue(settings, key).None? ==> Enabled(settings, key)
    ensures JobConfigs(settings)[1].enabled == JobConfigs(settings)[2].enabled
    ensures settings == [] ==> forall i :: 0 <= i < |JobNames| ==> JobConfigs(settings)[i].enabled
  {
    var cs := JobConfigs(settings);
    if settings == [] {
      assert cs[0].enabled && cs[1].enabled && cs[2].enabled && cs[3].enabled && cs[4].enabled;
    }
  }

  lemma JobNamesDistinct()
    ensures Distinct(JobNames)
  {
  }

  /** The cutoff of the scheduled payment job: parseInt of the value with a `??` default. */
  function ScheduledCutoffHours(settings: seq<Setting>): Option<int> {
    ParseInt(GetSetting(settings, "cronCutoffHours", "24"))
  }

  /** The cutoff of a manual run: parseInt of the value with an `||` default. */
  function ManualCutoffHours(settings: seq<Setting>): Option<int> {
    ParseInt(OrElse(FindValue(settings, "cronCutoffHours"), "24"))
  }

  lemma ParseInt24()
    ensures ParseInt("24") == Some(24)
  {
    assert NatToString(24) == "24";
    ParseIntOfNatToString(24);
  }

  /** The two readings of the cutoff differ exactly on a stored empty string: the manual
      run falls back to 24 hours and the scheduled job parses NaN. */
  lemma CutoffHoursReadings(settings: seq<Setting>)
    ensures FindValue(settings, "cronCutoffHours") == Some("") ==>
              ScheduledCutoffHours(settings) == None && ManualCutoffHours(settings) == Some(24)
    ensures FindValue(settings, "cronCutoffHours") != Some("") ==>
              ScheduledCutoffHours(settings) == ManualCutoffHours(settings)
    ensures FindValue(settings, "cronCutoffHours").None? ==> ScheduledCutoffHours(settings) == Some(24)
  {
    ParseInt24();
    assert ParseInt("") == None;
  }

  // ---------------------------------------------------------------- UUID-shaped keys

  predicate DashPosition(i: int) { i == 8 || i == 13 || i == 18 || i == 23 }

  /** The text form of a UUID (8-4-4-4-12 hexadecimal digits, either case), as section 3
      of RFC 4122 writes it. */
  predicate IsUuid(key: string) {
    |key| == 36 && forall i :: 0 <= i < 36 ==> if DashPosition(i) then key[i] == '-' else IsHexDigit(key[i])
  }

  /** The UUID text of 32 hexadecimal digit values, lower case with the four dashes. */
  function UuidText(digits: seq<nat>): (s: string)
    requires |digits| == 32 && forall i :: 0 <= i < 32 ==> digits[i] < 16
    ensures |s| == 36
  {
    seq(36, i requires 0 <= i < 36 =>
      if DashPosition(i) then '-'
      else HexChar(digits[i - (if i < 8 then 0 else if i < 13 then 1 else if i < 18 then 2 else if i < 23 then 3 else 4)]))
  }

  /** Every UUID text is recognised, and recognition ignores case. */
  lemma UuidRecognised(digits: seq<nat>, key: string)
    requires |digits| == 32 && forall i :: 0 <= i < 32 ==> digits[i] < 16
    ensures IsUuid(UuidText(digits))
    ensures IsUuid(ToUpper(key)) <==> IsUuid(key)
  {
  }

  /** No job name is UUID-shaped, so cleanup only removes a job's entry when its task is
      invalid. */
  lemma JobNamesAreNotUuids()
    ensures forall i :: 0 <= i < |JobNames| ==> !IsUuid(JobNames[i])
  {
  }

  // ---------------------------------------------------------------- registry values

  function Other(k: string): string -> bool {
    x => x != k
  }

  function NotIn(ks: seq<string>): string -> bool {
    x => x !in ks
  }

  /** The ids of the valid tasks of the named entries: the tasks that stopping them stops. */
  function StoppableIds(names: seq<string>, tasks: map<string, TaskInfo>): set<nat>
    decreases |names|
  {
    if names == [] then {}
    else
      var n := names[|names| - 1];
      StoppableIds(names[..|names| - 1], tasks)
      + (if n in tasks && ValidTask(tasks[n]) then {tasks[n].task.value.id} else {})
  }

  /** The stopped ids are exactly those of the valid tasks among the names. */
  lemma {:induction false} StoppableIdsSpec(names: seq<string>, tasks: map<string, TaskInfo>, id: nat)
    ensures id in StoppableIds(names, tasks) <==>
            exists i :: 0 <= i < |names| && names[i] in tasks && ValidTask(tasks[names[i]])
                        && tasks[names[i]].task.value.id == id
    decreases |names|
  {
    if names != [] {
      var init := names[..|names| - 1];
      StoppableIdsSpec(init, tasks, id);
      if id in StoppableIds(init, tasks) {
        var i :| 0 <= i < |init| && init[i] in tasks && ValidTask(tasks[init[i]]) && tasks[init[i]].task.value.id == id;
        assert names[i] == init[i];
      }
      if exists i :: 0 <= i < |names| && names[i] in tasks && ValidTask(tasks[names[i]])
                     && tasks[names[i]].task.value.id == id {
        var i :| 0 <= i < |names| && names[i] in tasks && ValidTask(tasks[names[i]]) && tasks[names[i]].task.value.id == id;
        if i < |init| { assert init[i] == names[i]; }
      }
    }
  }

  predicate ValidAt(tasks: map<string, TaskInfo>, k: string) { k in tasks && ValidTask(tasks[k]) }

  function ValidIn(tasks: map<string, TaskInfo>): string -> bool {
    k => ValidAt(tasks, k)
  }

  /** A corrupted entry: a UUID-shaped key or no valid task. */
  predicate Corrupt(tasks: map<string, TaskInfo>, k: string) {
    k in tasks && (IsUuid(k) || !ValidTask(tasks[k]))
  }

  function CorruptIn(tasks: map<string, TaskInfo>): string -> bool {
    k => Corrupt(tasks, k)
  }

  function KeptIn(tasks: map<string, TaskInfo>): string -> bool {
    k => !Corrupt(tasks, k)
  }

  // ---------------------------------------------------------------- status

  datatype JobStatus = JobStatus(schedule: string, running: bool, lastRun: Option<int>,
                                 description: string, valid: bool)

  function StatusOfTask(info: TaskInfo): JobStatus {
    JobStatus(info.schedule, ValidTask(info) && info.running, info.lastRun, info.description, ValidTask(info))
  }

  /** `getCronJobsStatus`: an entry per registry key, in Map order; an entry runs only if
      its task is valid and its flag is set. */
  function StatusOf(order: seq<string>, tasks: map<string, TaskInfo>): (st: seq<(string, JobStatus)>)
    requires forall i :: 0 <= i < |order| ==> order[i] in tasks
    ensures |st| == |order|
    ensures forall i :: 0 <= i < |st| ==>
              st[i].0 == order[i] && st[i].1.schedule == tasks[order[i]].schedule
              && st[i].1.description == tasks[order[i]].description
              && (st[i].1.running <==> ValidTask(tasks[order[i]]) && tasks[order[i]].running)
              && (st[i].1.valid <==> ValidTask(tasks[order[i]]))
  {
    seq(|order|, i requires 0 <= i < |order| => (order[i], StatusOfTask(tasks[order[i]])))
  }

  // ---------------------------------------------------------------- loading

  /** Whether one configuration ends up registered. */
  predicate Starts(valid: string -> bool, c: JobConfig) { c.enabled && valid(c.schedule) }

  function Starter(valid: string -> bool): JobConfig -> bool {
    c => Starts(valid, c)
  }

  /** The registry entry of a started job. */
  function Started(c: JobConfig, id: nat): TaskInfo {
    TaskInfo(Some(Handle(id, true)), c.schedule, true, None, c.description)
  }

  /** One turn of the loading loop: a disabled job is skipped; otherwise an entry of the
      same name is deleted, and the job is registered if its schedule is valid. */
  function StartEffect(order: seq<string>, tasks: map<string, TaskInfo>, next: nat,
                       c: JobConfig, valid: string -> bool): (seq<string>, map<string, TaskInfo>, nat)
  {
    if !c.enabled then (order, tasks, next)
    else
      var order1 := DeleteOrder(order, tasks, c.name);
      var tasks1 := tasks - {c.name};
      if !valid(c.schedule) then (order1, tasks1, next)
      else (order1 + [c.name], tasks1[c.name := Started(c, next)], next + 1)
  }

  /** The loading loop over a list of configurations. */
  function LoadEffect(order: seq<string>, tasks: map<string, TaskInfo>, next: nat,
                      cs: seq<JobConfig>, valid: string -> bool): (seq<string>, map<string, TaskInfo>, nat)
    decreases |cs|
  {
    if cs == [] then (order, tasks, next)
    else
      var (o, t, n) := LoadEffect(order, tasks, next, cs[..|cs| - 1], valid);
      StartEffect(o, t, n, cs[|cs| - 1], valid)
  }

  function Names(cs: seq<JobConfig>): (ns: seq<string>)
    ensures |ns| == |cs| && forall i :: 0 <= i < |cs| ==> ns[i] == cs[i].name
  {
    seq(|cs|, i requires 0 <= i < |cs| => cs[i].name)
  }

  /** What loading `cs` into an empty registry leaves: in order, the enabled ones with a
      valid schedule, each running, never run, with its own schedule and description and a
      fresh handle. */
  ghost predicate LoadedAs(next: nat, cs: seq<JobConfig>, valid: string -> bool,
                           o: seq<string>, t: map<string, TaskInfo>, n: nat) {
    && o == Names(Filter(cs, Starter(valid)))
    && n == next + |o|
    && (forall k :: k in t <==> k in o)
    && (forall i :: 0 <= i < |cs| && cs[i].name in t ==>
          t[cs[i].name].task.Some? && next <= t[cs[i].name].task.value.id < n
          && t[cs[i].name] == Started(cs[i], t[cs[i].name].task.value.id))
  }

  /** One more configuration, whose name is new, keeps `LoadedAs`. */
  lemma LoadedStep(next: nat, init: seq<JobConfig>, c: JobConfig, valid: string -> bool,
                   o: seq<string>, t: map<string, TaskInfo>, n: nat)
    requires Distinct(Names(init + [c])) && LoadedAs(next, init, valid, o, t, n)
    ensures var (o', t', n') := StartEffect(o, t, n, c, valid);
            LoadedAs(next, init + [c], valid, o', t', n')
  {
    var cs := init + [c];
    NameNotLoaded(init, c, valid, o);
    FilterSnoc(init, c, Starter(valid));
    assert c.name !in t;
    assert t - {c.name} == t && DeleteOrder(o, t, c.name) == o;
    assert forall i :: 0 <= i < |init| ==> cs[i] == init[i];
    assert forall i :: 0 <= i < |init| ==> cs[i].name != c.name by {
      forall i | 0 <= i < |init| ensures cs[i].name != c.name {
        assert Names(cs)[i] == cs[i].name && Names(cs)[|init|] == c.name;
      }
    }
    if Starts(valid, c) {
      assert Names(Filter(init, Starter(valid)) + [c]) == o + [c.name];
    }
  }

  /** Loading configurations with distinct names into an empty registry leaves `LoadedAs`. */
  lemma {:induction false} LoadEffectSpec(next: nat, cs: seq<JobConfig>, valid: string -> bool)
    requires Distinct(Names(cs))
    ensures var (o, t, n) := LoadEffect([], map[], next, cs, valid);
            LoadedAs(next, cs, valid, o, t, n)
    decreases |cs|
  {
    if cs == [] {
      assert Filter(cs, Starter(valid)) == [];
    } else {
      var init := cs[..|cs| - 1];
      var c := cs[|cs| - 1];
      assert cs == init + [c];
      assert Names(init) == Names(cs)[..|cs| - 1];
      LoadEffectSpec(next, init, valid);
      var (o, t, n) := LoadEffect([], map[], next, init, valid);
      LoadedStep(next, init, c, valid, o, t, n);
    }
  }

  /** The loading loop after one more configuration. */
  lemma LoadEffectSnoc(order: seq<string>, tasks: map<string, TaskInfo>, next: nat,
                       cs: seq<JobConfig>, i: nat, valid: string -> bool)
    requires i < |cs|
    ensures var (o, t, n) := LoadEffect(order, tasks, next, cs[..i], valid);
            LoadEffect(order, tasks, next, cs[..i + 1], valid) == StartEffect(o, t, n, cs[i], valid)
  {
    assert cs[..i + 1][..i] == cs[..i];
  }

  /** The five configurations carry the five job names. */
  lemma JobConfigNames(cs: seq<JobConfig>)
    requires |cs| == |JobNames| && cs[0].name == JobNames[0] && cs[1].name == JobNames[1] && cs[2].name == JobNames[2]
    requires cs[3].name == JobNames[3] && cs[4].name == JobNames[4]
    ensures Names(cs) == JobNames && Distinct(JobNames)
  {
    var ns := Names(cs);
    assert ns[0] == JobNames[0] && ns[1] == JobNames[1] && ns[2] == JobNames[2];
    assert ns[3] == JobNames[3] && ns[4] == JobNames[4];
    assert ns == JobNames;
    JobNamesDistinct();
  }

  /** A name outside the configurations loaded so far is not in the order they left. */
  lemma NameNotLoaded(init: seq<JobConfig>, c: JobConfig, valid: string -> bool, o: seq<string>)
    requires Distinct(Names(init + [c])) && o == Names(Filter(init, Starter(valid)))
    ensures c.name !in o
  {
    var f := Filter(init, Starter(valid));
    forall k | 0 <= k < |o| ensures o[k] != c.name {
      FilterMembership(init, Starter(valid), f[k]);
      var j :| 0 <= j < |init| && init[j] == f[k];
      assert Names(init + [c])[j] == init[j].name && Names(init + [c])[|init|] == c.name;
    }
  }

  /** Under distinct names, a configuration's name is registered exactly when it starts. */
  lemma LoadedExactly(next: nat, cs: seq<JobConfig>, valid: string -> bool, i: nat)
    requires Distinct(Names(cs)) && i < |cs|
    ensures cs[i].name in LoadEffect([], map[], next, cs, valid).1 <==> Starts(valid, cs[i])
  {
    LoadEffectSpec(next, cs, valid);
    var f := Filter(cs, Starter(valid));
    var o := Names(f);
    FilterMembership(cs, Starter(valid), cs[i]);
    if cs[i].name in o {
      var k :| 0 <= k < |o| && o[k] == cs[i].name;
      FilterMembership(cs, Starter(valid), f[k]);
      var j :| 0 <= j < |cs| && cs[j] == f[k];
      assert Names(cs)[j] == Names(cs)[i];
    }
    if Starts(valid, cs[i]) {
      var k :| 0 <= k < |f| && f[k] == cs[i];
      assert o[k] == cs[i].name;
    }
  }

  // ---------------------------------------------------------------- registry invariant

  /** The Map's keys in insertion order, without repeats, exactly the map's keys; handle
      ids below the next fresh one. */
  predicate WellFormed(order: seq<string>, tasks: map<string, TaskInfo>, stopped: set<nat>, next: nat) {
    Distinct(order)
    && (forall i :: 0 <= i < |order| ==> order[i] in tasks)
    && (forall k :: k in tasks ==> k in order)
    && (forall k :: k in tasks && tasks[k].task.Some? ==> tasks[k].task.value.id < next)
    && (forall id :: id in stopped ==> id < next)
  }

  /** The key order after `Map.delete(k)`. */
  function DeleteOrder(order: seq<string>, tasks: map<string, TaskInfo>, k: string): seq<string> {
    if k in tasks then Filter(order, Other(k)) else order
  }

  lemma DeleteWellFormed(order: seq<string>, tasks: map<string, TaskInfo>, stopped: set<nat>, next: nat, k: string)
    requires WellFormed(order, tasks, stopped, next)
    ensures WellFormed(DeleteOrder(order, tasks, k), tasks - {k}, stopped, next)
  {
    if k in tasks {
      var f := Filter(order, Other(k));
      FilterDistinct(order, Other(k));
      forall x | x in tasks - {k} ensures x in f {
        FilterMembership(order, Other(k), x);
      }
      forall i | 0 <= i < |f| ensures f[i] in tasks - {k} {
        FilterMembership(order, Other(k), f[i]);
      }
    }
  }

  /** One turn of the loading loop keeps the registry well formed, counting the replaced
      task as stopped. */
  lemma StartEffectWellFormed(order: seq<string>, tasks: map<string, TaskInfo>, stopped: set<nat>, next: nat,
                              c: JobConfig, valid: string -> bool)
    requires WellFormed(order, tasks, stopped, next)
    ensures var (o, t, n) := StartEffect(order, tasks, next, c, valid);
            WellFormed(o, t, if c.enabled && ValidAt(tasks, c.name) then stopped + {tasks[c.name].task.value.id} else stopped, n)
  {
    if c.enabled {
      var s := if ValidAt(tasks, c.name) then stopped + {tasks[c.name].task.value.id} else stopped;
      assert WellFormed(order, tasks, s, next);
      DeleteWellFormed(order, tasks, s, next, c.name);
      var o1, t1 := DeleteOrder(order, tasks, c.name), tasks - {c.name};
      assert c.name !in t1;
      if valid(c.schedule) {
        AddWellFormed(o1, t1, s, next, c);
      }
    }
  }

  /** Adding a new entry under a fresh handle keeps the registry well formed. */
  lemma AddWellFormed(order: seq<string>, tasks: map<string, TaskInfo>, stopped: set<nat>, next: nat, c: JobConfig)
    requires WellFormed(order, tasks, stopped, next) && c.name !in tasks
    ensures WellFormed(order + [c.name], tasks[c.name := Started(c, next)], stopped, next + 1)
  {
    var o := order + [c.name];
    assert c.name !in order;
    forall i, j | 0 <= i < j < |o| ensures o[i] != o[j] {
      if j == |order| { assert o[i] == order[i]; }
      else { assert o[i] == order[i] && o[j] == order[j]; }
    }
  }

  lemma {:induction false} StoppableIdsBelow(names: seq<string>, tasks: map<string, TaskInfo>, bound: nat)
    requires forall k :: k in tasks && tasks[k].task.Some? ==> tasks[k].task.value.id < bound
    ensures forall id :: id in StoppableIds(names, tasks) ==> id < bound
    decreases |names|
  {
    if names != [] { StoppableIdsBelow(names[..|names| - 1], tasks, bound); }
  }

  /** The cleanup loop's state after deleting the first `i` corrupted keys. */
  ghost predicate CleanupInv(names: seq<string>, before: map<string, TaskInfo>, corrupted: seq<string>, i: nat,
                       o: seq<string>, t: map<string, TaskInfo>)
    requires i <= |corrupted|
  {
    o == Filter(names, NotIn(corrupted[..i]))
    && (forall k :: k in t <==> k in before && k !in corrupted[..i])
    && (forall k :: k in t ==> t[k] == before[k])
  }

  lemma CleanupStart(names: seq<string>, before: map<string, TaskInfo>, corrupted: seq<string>)
    ensures CleanupInv(names, before, corrupted, 0, names, before)
  {
    FilterAll(names, NotIn(corrupted[..0]));
  }

  /** Deleting the next corrupted key advances the cleanup loop's state. */
  lemma CleanupStep(names: seq<string>, before: map<string, TaskInfo>, corrupted: seq<string>, i: nat,
                    o: seq<string>, t: map<string, TaskInfo>)
    requires Distinct(corrupted) && i < |corrupted| && corrupted[i] in before
    requires CleanupInv(names, before, corrupted, i, o, t)
    ensures corrupted[i] in t && t[corrupted[i]] == before[corrupted[i]]
    ensures CleanupInv(names, before, corrupted, i + 1, Filter(o, Other(corrupted[i])), t - {corrupted[i]})
    ensures StoppableIds(corrupted[..i + 1], before)
            == StoppableIds(corrupted[..i], before)
               + (if ValidTask(before[corrupted[i]]) then {before[corrupted[i]].task.value.id} else {})
  {
    var key := corrupted[i];
    assert corrupted[..i + 1] == corrupted[..i] + [key];
    assert corrupted[..i + 1][..i] == corrupted[..i];
    assert key !in corrupted[..i];
    FilterTwice(names, NotIn(corrupted[..i]), Other(key), NotIn(corrupted[..i + 1]));
  }

  /** What the cleanup loop leaves once every corrupted key is deleted. */
  lemma CleanupResult(names: seq<string>, before: map<string, TaskInfo>, corrupted: seq<string>,
                      o: seq<string>, t: map<string, TaskInfo>)
    requires Distinct(names)
    requires forall i :: 0 <= i < |names| ==> names[i] in before
    requires forall k :: k in before ==> k in names
    requires corrupted == Filter(names, CorruptIn(before))
    requires CleanupInv(names, before, corrupted, |corrupted|, o, t)
    ensures o == Filter(names, KeptIn(before))
    ensures t == map k | k in before && !Corrupt(before, k) :: before[k]
    ensures Distinct(o)
    ensures forall i :: 0 <= i < |o| ==> o[i] in t
    ensures forall k :: k in t ==> k in o
  {
    assert corrupted[..|corrupted|] == corrupted;
    CorruptedListed(names, before, corrupted);
    KeptMap(before, t);
    KeptWellFormed(names, before, o, t);
  }

  /** The corrupted list holds exactly the corrupt keys, so the names not on it are the
      kept ones. */
  lemma CorruptedListed(names: seq<string>, before: map<string, TaskInfo>, corrupted: seq<string>)
    requires forall k :: k in before ==> k in names
    requires corrupted == Filter(names, CorruptIn(before))
    ensures Filter(names, NotIn(corrupted)) == Filter(names, KeptIn(before))
    ensures forall k :: k in before ==> (k in corrupted <==> Corrupt(before, k))
  {
    forall j | 0 <= j < |names| ensures NotIn(corrupted)(names[j]) == KeptIn(before)(names[j]) {
      FilterMembership(names, CorruptIn(before), names[j]);
    }
    FilterExt(names, NotIn(corrupted), KeptIn(before));
    forall k | k in before ensures k in corrupted <==> Corrupt(before, k) {
      FilterMembership(names, CorruptIn(before), k);
    }
  }

  lemma KeptMap(before: map<string, TaskInfo>, t: map<string, TaskInfo>)
    requires forall k :: k in t <==> k in before && !Corrupt(before, k)
    requires forall k :: k in t ==> t[k] == before[k]
    ensures t == map k | k in before && !Corrupt(before, k) :: before[k]
  {
  }

  /** The kept names are distinct and are exactly the kept entries' keys. */
  lemma KeptWellFormed(names: seq<string>, before: map<string, TaskInfo>, o: seq<string>, t: map<string, TaskInfo>)
    requires Distinct(names)
    requires forall i :: 0 <= i < |names| ==> names[i] in before
    requires o == Filter(names, KeptIn(before))
    requires forall k :: k in t <==> k in before && !Corrupt(before, k)
    ensures Distinct(o)
    ensures forall i :: 0 <= i < |o| ==> o[i] in t
    ensures forall k :: k in t ==> k in names ==> k in o
  {
    FilterDistinct(names, KeptIn(before));
    forall x | x in t && x in names ensures x in o {
      FilterMembership(names, KeptIn(before), x);
    }
    forall j | 0 <= j < |o| ensures o[j] in t {
      FilterMembership(names, KeptIn(before), o[j]);
    }
  }

  // ---------------------------------------------------------------- running a job

  /** The five jobs `runCronJobManually` knows. */
  datatype Job = PaymentCleanup | SubscriptionExpire | SubscriptionReminder | Maintenance | WeeklyStats

  function JobName(j: Job): string {
    match j
    case PaymentCleanup => "paymentCleanup"
    case SubscriptionExpire => "subscriptionExpire"
    case SubscriptionReminder => "subscriptionReminder"
    case Maintenance => "maintenance"
    case WeeklyStats => "weeklyStats"
  }

  /** The job a name selects, if any. */
  function JobOf(name: string): (r: Option<Job>)
    ensures r.Some? <==> name in JobNames
    ensures r.Some? ==> JobName(r.value) == name
  {
    if name == "paymentCleanup" then Some(PaymentCleanup)
    else if name == "subscriptionExpire" then Some(SubscriptionExpire)
    else if name == "subscriptionReminder" then Some(SubscriptionReminder)
    else if name == "maintenance" then Some(Maintenance)
    else if name == "weeklyStats" then Some(WeeklyStats)
    else None
  }

  /** Every job is selected by its own name. */
  lemma JobOfName(j: Job)
    ensures JobOf(JobName(j)) == Some(j)
  {
    JobNamesDistinct();
    assert JobName(j) in JobNames;
  }

  /** The message a run reports, written out by `MessageText`. */
  datatype RunMessage =
    | Marked(failed: nat)
    | Deactivated(expired: nat)
    | RemindersProcessed
    | MaintenanceCompleted
    | StatsUpdated
    | InvalidCutoff
    | UnknownJob(name: string)

  function MessageText(m: RunMessage): string {
    match m
    case Marked(n) => "Marked " + NatToString(n) + " payments as FAILED"
    case Deactivated(n) => "Deactivated " + NatToString(n) + " expired subscriptions"
    case RemindersProcessed => "Subscription reminders processed"
    case MaintenanceCompleted => "Maintenance cleanup completed"
    case StatsUpdated => "System statistics updated"
    case InvalidCutoff => "Error: invalid cutoff date"
    case UnknownJob(name) => "Unknown job: " + name
  }

  /** The three tables a job may write. */
  datatype Tables = Tables(payments: seq<Payment>, subscriptions: seq<Subscription>, settings: seq<Setting>)

  function TablesOf(db: Db): Tables
    reads db
  {
    Tables(db.payments, db.subscriptions, db.settings)
  }

  /** The tables after one run of `job` from `t`. The payment sweep needs a cutoff in
      hours: without one the cutoff date is invalid and the store rejects the update. */
  function JobTables(job: Job, cutoffHours: Option<int>, now: int, sixMonthsAgo: int, statsJson: string, t: Tables): Tables {
    match job
    case PaymentCleanup =>
      if cutoffHours.Some? then t.(payments := ExpireStale(t.payments, now - cutoffHours.value * HourMs)) else t
    case SubscriptionExpire => t.(subscriptions := DeactivateLapsed(t.subscriptions, now))
    case SubscriptionReminder => t
    case Maintenance => t.(payments := DeleteObsolete(t.payments, sixMonthsAgo))
    case WeeklyStats => t.(settings := Upsert(t.settings, "SYSTEM_STATS", statsJson))
  }

  /** The subscriptions a run of `job` from `t` would remind: only the reminder job has any. */
  function JobReminders(job: Job, now: int, t: Tables): seq<Subscription> {
    if job == SubscriptionReminder then Expiring(t.subscriptions, now) else []
  }

  /** Whether a run succeeds, and the message it reports. */
  datatype Outcome = Outcome(ok: bool, message: RunMessage)

  function JobOutcome(job: Job, cutoffHours: Option<int>, now: int, t: Tables): Outcome {
    match job
    case PaymentCleanup =>
      if cutoffHours.Some? then Outcome(true, Marked(StaleCount(t.payments, now - cutoffHours.value * HourMs)))
      else Outcome(false, InvalidCutoff)
    case SubscriptionExpire => Outcome(true, Deactivated(Count(t.subscriptions, LapsedAt(now))))
    case SubscriptionReminder => Outcome(true, RemindersProcessed)
    case Maintenance => Outcome(true, MaintenanceCompleted)
    case WeeklyStats => Outcome(true, StatsUpdated)
  }

  /** Each job writes only its own table, and only the payment sweep can fail, exactly
      when it has no cutoff. */
  lemma JobFrame(job: Job, cutoffHours: Option<int>, now: int, sixMonthsAgo: int, statsJson: string, t: Tables)
    ensures var r := JobTables(job, cutoffHours, now, sixMonthsAgo, statsJson, t);
            && (job != PaymentCleanup && job != Maintenance ==> r.payments == t.payments)
            && (job != SubscriptionExpire ==> r.subscriptions == t.subscriptions)
            && (job != WeeklyStats ==> r.settings == t.settings)
            && (job == SubscriptionReminder ==> r == t)
    ensures !JobOutcome(job, cutoffHours, now, t).ok <==> job == PaymentCleanup && cutoffHours.None?
    ensures job == PaymentCleanup && cutoffHours.None? ==>
              JobTables(job, cutoffHours, now, sixMonthsAgo, statsJson, t) == t
    ensures job != SubscriptionReminder ==> JobReminders(job, now, t) == []
  {
  }

  /** A job's body over the store, as a tick or a manual run executes it: the new tables,
      the reminders and the outcome are those of the run from the old tables. The reminder
      job returns the subscriptions it would e-mail; weeklyStats stores the given
      statistics text. */
  method Execute(db: Db, job: Job, cutoffHours: Option<int>, now: int, sixMonthsAgo: int, statsJson: string)
    returns (ok: bool, message: RunMessage, reminders: seq<Subscription>)
    requires db.Valid()
    modifies db`payments, db`subscriptions, db`settings
    ensures db.Valid()
    ensures TablesOf(db) == JobTables(job, cutoffHours, now, sixMonthsAgo, statsJson, old(TablesOf(db)))
    ensures reminders == JobReminders(job, now, old(TablesOf(db)))
    ensures Outcome(ok, message) == JobOutcome(job, cutoffHours, now, old(TablesOf(db)))
  {
    reminders := [];
    match job
    case PaymentCleanup =>
      if cutoffHours.None? {
        return false, InvalidCutoff, [];
      }
      var count := db.ExpirePendingBefore(now - cutoffHours.value * HourMs);
      ok, message := true, Marked(count);
    case SubscriptionExpire =>
      var count := db.DeactivateExpired(now);
      ok, message := true, Deactivated(count);
    case SubscriptionReminder =>
      reminders := Expiring(db.subscriptions, now);
      ok, message := true, RemindersProcessed;
    case Maintenance =>
      var count := db.DeleteObsoletePayments(sixMonthsAgo);
      ok, message := true, MaintenanceCompleted;
    case WeeklyStats =>
      db.UpsertSetting("SYSTEM_STATS", statsJson);
      ok, message := true, StatsUpdated;
  }

  /** The store side of `runCronJobManually` for the job its name selects: no job is
      refused, the cleanup runs with the manual cutoff, every other job runs as scheduled. */
  method RunSelected(db: Db, job: Option<Job>, jobName: string, now: int, sixMonthsAgo: int, statsJson: string)
    returns (success: bool, message: RunMessage, reminders: seq<Subscription>)
    requires db.Valid()
    modifies db`payments, db`subscriptions, db`settings
    ensures db.Valid()
    ensures job.None? ==>
              !success && message == UnknownJob(jobName) && reminders == [] && TablesOf(db) == old(TablesOf(db))
    ensures job.Some? ==>
              var cutoff := ManualCutoffHours(old(db.settings));
              && TablesOf(db) == JobTables(job.value, cutoff, now, sixMonthsAgo, statsJson, old(TablesOf(db)))
              && reminders == JobReminders(job.value, now, old(TablesOf(db)))
              && Outcome(success, message) == JobOutcome(job.value, cutoff, now, old(TablesOf(db)))
  {
    if job.None? {
      return false, UnknownJob(jobName), [];
    }
    var cutoff := ManualCutoffHours(db.settings);
    success, message, reminders := Execute(db, job.value, cutoff, now, sixMonthsAgo, statsJson);
  }

  // ---------------------------------------------------------------- the registry

  /** The stopping loop of `stopAllCronJobs` over the entries in key order: the ids it
      stops and how many. */
  method StopEach(names: seq<string>, t: map<string, TaskInfo>, stopped: set<nat>)
    returns (ids: set<nat>, count: nat)
    requires forall i :: 0 <= i < |names| ==> names[i] in t
    ensures ids == stopped + StoppableIds(names, t)
    ensures count == Count(names, ValidIn(t))
  {
    ids, count := stopped, 0;
    var i := 0;
    while i < |names|
      invariant 0 <= i <= |names|
      invariant ids == stopped + StoppableIds(names[..i], t)
      invariant count == Count(names[..i], ValidIn(t))
    {
      var name := names[i];
      assert names[..i + 1] == names[..i] + [name];
      assert names[..i + 1][..i] == names[..i];
      FilterSnoc(names[..i], name, ValidIn(t));
      if ValidTask(t[name]) {
        ids := ids + {t[name].task.value.id};
        count := count + 1;
      }
      i := i + 1;
    }
    assert names[..i] == names;
  }

  /** The deleting loop of `cleanupCorruptedJobs`: the key order and entries it leaves,
      the ids it stops and how many entries it deletes. */
  method DeleteCorrupted(names: seq<string>, before: map<string, TaskInfo>, stopped: set<nat>)
    returns (o: seq<string>, t: map<string, TaskInfo>, ids: set<nat>, count: nat)
    requires Distinct(names)
    requires forall i :: 0 <= i < |names| ==> names[i] in before
    requires forall k :: k in before ==> k in names
    ensures o == Filter(names, KeptIn(before)) && Distinct(o)
    ensures t == map k | k in before && !Corrupt(before, k) :: before[k]
    ensures (forall i :: 0 <= i < |o| ==> o[i] in t) && (forall k :: k in t ==> k in o)
    ensures forall k :: k in t ==> k in before && t[k] == before[k]
    ensures ids == stopped + StoppableIds(Filter(names, CorruptIn(before)), before)
    ensures count == Count(names, CorruptIn(before))
  {
    var corrupted := Filter(names, CorruptIn(before));
    FilterDistinct(names, CorruptIn(before));
    o, t, ids, count := DeleteEach(names, before, corrupted, stopped);
    CleanupResult(names, before, corrupted, o, t);
  }

  /** Deletes the listed corrupted keys one by one, stopping each valid task. */
  method DeleteEach(names: seq<string>, before: map<string, TaskInfo>, corrupted: seq<string>, stopped: set<nat>)
    returns (o: seq<string>, t: map<string, TaskInfo>, ids: set<nat>, count: nat)
    requires Distinct(corrupted) && forall i :: 0 <= i < |corrupted| ==> corrupted[i] in before
    ensures CleanupInv(names, before, corrupted, |corrupted|, o, t)
    ensures ids == stopped + StoppableIds(corrupted, before)
    ensures count == |corrupted|
  {
    o, t, ids := names, before, stopped;
    count := 0;
    var i := 0;
    CleanupStart(names, before, corrupted);
    while i < |corrupted|
      invariant 0 <= i <= |corrupted|
      invariant CleanupInv(names, before, corrupted, i, o, t)
      invariant ids == stopped + StoppableIds(corrupted[..i], before)
      invariant count == i
    {
      var key := corrupted[i];
      CleanupStep(names, before, corrupted, i, o, t);
      var info := t[key];
      if info.task.Some? && info.task.value.stoppable {
        ids := ids + {info.task.value.id};
      }
      o := Filter(o, Other(key));
      t := t - {key};
      count := count + 1;
      i := i + 1;
    }
    assert corrupted[..i] == corrupted;
  }

  class Registry {
    var order: seq<string>
    var tasks: map<string, TaskInfo>
    var stopped: set<nat>
    var nextHandle: nat
    /** The settings the last load read; the scheduled callbacks use them. */
    var loadedSettings: seq<Setting>

    predicate Valid()
      reads this
    {
      WellFormed(order, tasks, stopped, nextHandle)
    }

    constructor()
      ensures Valid() && order == [] && tasks == map[] && stopped == {} && nextHandle == 0
      ensures loadedSettings == []
    {
      order := [];
      tasks := map[];
      stopped := {};
      nextHandle := 0;
      loadedSettings := [];
    }

    /** `getCronJobsStatus`. */
    method GetCronJobsStatus() returns (status: seq<(string, JobStatus)>)
      requires Valid()
      ensures status == StatusOf(order, tasks)
    {
      status := [];
      var i := 0;
      while i < |order|
        invariant 0 <= i <= |order|
        invariant status == StatusOf(order[..i], tasks)
      {
        status := status + [(order[i], StatusOfTask(tasks[order[i]]))];
        i := i + 1;
      }
      assert order[..i] == order;
    }

    /** `stopAllCronJobs`: stops every valid task and deletes every entry, valid or not;
        returns how many tasks it stopped. */
    method StopAll() returns (stoppedCount: nat)
      requires Valid()
      modifies this`order, this`tasks, this`stopped
      ensures Valid()
      ensures order == [] && tasks == map[]
      ensures stopped == old(stopped) + StoppableIds(old(order), old(tasks))
      ensures stoppedCount == Count(old(order), ValidIn(old(tasks)))
    {
      var ids;
      ids, stoppedCount := StopEach(order, tasks, stopped);
      StoppableIdsBelow(order, tasks, nextHandle);
      order, tasks, stopped := [], map[], ids;
    }

    /** One turn of the loading loop (a disabled job, a replaced entry, an invalid
        schedule, a started job); returns whether a job was started. */
    method StartJob(c: JobConfig, valid: string -> bool) returns (created: bool)
      requires Valid()
      modifies this`order, this`tasks, this`stopped, this`nextHandle
      ensures Valid()
      ensures (order, tasks, nextHandle) == StartEffect(old(order), old(tasks), old(nextHandle), c, valid)
      ensures stopped == if c.enabled && ValidAt(old(tasks), c.name)
                         then old(stopped) + {old(tasks)[c.name].task.value.id} else old(stopped)
      ensures created <==> Starts(valid, c)
    {
      StartEffectWellFormed(order, tasks, stopped, nextHandle, c, valid);
      if !c.enabled {
        return false;
      }
      // an existing entry is stopped and deleted, then the new one is added
      if ValidAt(tasks, c.name) {
        stopped := stopped + {tasks[c.name].task.value.id};
      }
      var order1, tasks1 := DeleteOrder(order, tasks, c.name), tasks - {c.name};
      if !valid(c.schedule) {
        order, tasks := order1, tasks1;
        return false;
      }
      order, tasks, nextHandle := order1 + [c.name], tasks1[c.name := Started(c, nextHandle)], nextHandle + 1;
      created := true;
    }

    /** `loadAllCronJobs`: stop everything, then start the five jobs from the settings;
        returns how many it started. */
    method LoadAll(settings: seq<Setting>, valid: string -> bool) returns (jobsCreated: nat)
      requires Valid()
      modifies this
      ensures Valid()
      ensures (order, tasks, nextHandle) == LoadEffect([], map[], old(nextHandle), JobConfigs(settings), valid)
      ensures old(stopped) + StoppableIds(old(order), old(tasks)) <= stopped
      ensures jobsCreated == |order|
      ensures loadedSettings == settings
    {
      var stoppedCount := StopAll();
      loadedSettings := settings;
      var cs := JobConfigs(settings);
      JobConfigNames(cs);
      jobsCreated := StartEach(cs, valid);
    }

    /** The starting loop of `loadCronJobs` over an empty registry. */
    method StartEach(cs: seq<JobConfig>, valid: string -> bool) returns (jobsCreated: nat)
      requires Valid() && order == [] && tasks == map[] && Distinct(Names(cs))
      modifies this`order, this`tasks, this`stopped, this`nextHandle
      ensures Valid()
      ensures (order, tasks, nextHandle) == LoadEffect([], map[], old(nextHandle), cs, valid)
      ensures old(stopped) <= stopped
      ensures jobsCreated == |order|
    {
      jobsCreated := 0;
      var i := 0;
      assert cs[..0] == [];
      while i < |cs|
        invariant 0 <= i <= |cs|
        invariant Valid()
        invariant (order, tasks, nextHandle) == LoadEffect([], map[], old(nextHandle), cs[..i], valid)
        invariant old(stopped) <= stopped
        invariant jobsCreated == nextHandle - old(nextHandle)
      {
        LoadEffectSnoc([], map[], old(nextHandle), cs, i, valid);
        var created := StartJob(cs[i], valid);
        if created {
          jobsCreated := jobsCreated + 1;
        }
        i := i + 1;
      }
      assert cs[..i] == cs;
      LoadEffectSpec(old(nextHandle), cs, valid);
    }

    /** `cleanupCorruptedJobs`: deletes every entry with a UUID-shaped key or without a
        valid task, stopping the ones it can; returns how many it deleted. */
    method CleanupCorruptedJobs() returns (cleanedCount: nat)
      requires Valid()
      modifies this`order, this`tasks, this`stopped
      ensures Valid()
      ensures order == Filter(old(order), KeptIn(old(tasks)))
      ensures tasks == map k | k in old(tasks) && !Corrupt(old(tasks), k) :: old(tasks)[k]
      ensures stopped == old(stopped) + StoppableIds(Filter(old(order), CorruptIn(old(tasks))), old(tasks))
      ensures cleanedCount == Count(old(order), CorruptIn(old(tasks)))
    {
      var o, t, ids;
      o, t, ids, cleanedCount := DeleteCorrupted(order, tasks, stopped);
      StoppableIdsBelow(Filter(order, CorruptIn(tasks)), tasks, nextHandle);
      order, tasks, stopped := o, t, ids;
    }

    /** Records a run of the job registered under `k`, if there is one. */
    method Stamp(k: string, now: int)
      requires Valid()
      modifies this`tasks
      ensures Valid()
      ensures tasks == if k in old(tasks) then old(tasks)[k := old(tasks)[k].(lastRun := Some(now))] else old(tasks)
    {
      if k in tasks {
        tasks := tasks[k := tasks[k].(lastRun := Some(now))];
      }
    }

    /** `runCronJobManually`: an unknown name fails and changes nothing; a known job runs
        with the cutoff read with `||`, and a successful run stamps the job's entry when
        the job is registered. */
    method RunManually(db: Db, jobName: string, now: int, sixMonthsAgo: int, statsJson: string)
      returns (success: bool, message: RunMessage, reminders: seq<Subscription>)
      requires Valid() && db.Valid()
      modifies this`tasks, db`payments, db`subscriptions, db`settings
      ensures Valid() && db.Valid()
      ensures JobOf(jobName).None? ==>
                !success && message == UnknownJob(jobName) && reminders == [] && TablesOf(db) == old(TablesOf(db))
      ensures JobOf(jobName).Some? ==>
                var job, cutoff := JobOf(jobName).value, ManualCutoffHours(old(db.settings));
                && TablesOf(db) == JobTables(job, cutoff, now, sixMonthsAgo, statsJson, old(TablesOf(db)))
                && reminders == JobReminders(job, now, old(TablesOf(db)))
                && Outcome(success, message) == JobOutcome(job, cutoff, now, old(TablesOf(db)))
      ensures tasks == if success && jobName in old(tasks)
                       then old(tasks)[jobName := old(tasks)[jobName].(lastRun := Some(now))]
                       else old(tasks)
    {
      success, message, reminders := RunSelected(db, JobOf(jobName), jobName, now, sixMonthsAgo, statsJson);
      if success {
        Stamp(jobName, now);
      }
    }

    /** A scheduled tick of a job: the entry, if still registered, is stamped first, then
        the job runs with the cutoff read at load time with `??`; an error is caught. */
    method Tick(db: Db, job: Job, now: int, sixMonthsAgo: int, statsJson: string)
      returns (reminders: seq<Subscription>)
      requires Valid() && db.Valid()
      modifies this`tasks, db`payments, db`subscriptions, db`settings
      ensures Valid() && db.Valid()
      ensures var k := JobName(job);
              tasks == if k in old(tasks) then old(tasks)[k := old(tasks)[k].(lastRun := Some(now))] else old(tasks)
      ensures TablesOf(db) == JobTables(job, ScheduledCutoffHours(loadedSettings), now, sixMonthsAgo, statsJson,
                                        old(TablesOf(db)))
      ensures reminders == JobReminders(job, now, old(TablesOf(db)))
    {
      Stamp(JobName(job), now);
      var cutoff := ScheduledCutoffHours(loadedSettings);
      var ok, message;
      ok, message, reminders := Execute(db, job, cutoff, now, sixMonthsAgo, statsJson);
    }
  }
}
