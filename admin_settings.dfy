// The admin settings page: how it reads the stored settings object into its general and
// scheduler forms, the job display names, and the test e-mail guard.

module AdminSettings {
  import opened Common
  import opened Store
  import CronManager
  import Admin

  function Get(m: map<string, string>, key: string): (r: Option<string>)
    ensures r.Some? <==> key in m
    ensures r.Some? ==> r.value == m[key]
  {
    if key in m then Some(m[key]) else None
  }

  /** A form flag: on exactly when the stored text is "true", so off when absent. */
  predicate Flag(m: map<string, string>, key: string) {
    Get(m, key) == Some("true")
  }

  datatype General = General(traccarUrl: string, traccarUser: string, emailEnabled: bool,
                             maintenanceMode: bool, maxDevicesPerUser: Option<int>)

  datatype CronForm = CronForm(cronEnabled: bool, cronSchedule: string, cronCutoffHours: Option<int>,
                               subscriptionCronEnabled: bool, subscriptionCronScheduleExpire: string,
                               subscriptionCronScheduleReminder: string, maintenanceCronEnabled: bool,
                               maintenanceCronSchedule: string, reportCronEnabled: bool,
                               reportCronScheduleWeekly: string)

  /** The general form; an unparsable number is NaN (`None`). */
  function ReadGeneral(m: map<string, string>): General {
    General(OrElse(Get(m, "traccarUrl"), ""), OrElse(Get(m, "traccarUser"), ""),
            Flag(m, "emailEnabled"), Flag(m, "maintenanceMode"),
            ParseInt(OrElse(Get(m, "maxDevicesPerUser"), "5")))
  }

  /** The scheduler form: flags from "true", schedules with their listed fallbacks. */
  function ReadCron(m: map<string, string>): CronForm {
    CronForm(Flag(m, "cronEnabled"), OrElse(Get(m, "cronSchedule"), "0 * * * *"),
             ParseInt(OrElse(Get(m, "cronCutoffHours"), "24")),
             Flag(m, "subscriptionCronEnabled"),
             OrElse(Get(m, "subscriptionCronScheduleExpire"), "0 9 * * *"),
             OrElse(Get(m, "subscriptionCronScheduleReminder"), "0 9 * * *"),
             Flag(m, "maintenanceCronEnabled"), OrElse(Get(m, "maintenanceCronSchedule"), "0 * * * *"),
             Flag(m, "reportCronEnabled"), OrElse(Get(m, "reportCronScheduleWeekly"), "0 0 * * 0"))
  }

  /** With nothing stored the forms show every flag off, the listed schedules, a 24-hour
      cutoff and five devices per user. */
  lemma ReadDefaults()
    ensures ReadGeneral(map[]) == General("", "", false, false, Some(5))
    ensures ReadCron(map[]) == CronForm(false, "0 * * * *", Some(24), false, "0 9 * * *", "0 9 * * *",
                                        false, "0 * * * *", false, "0 0 * * 0")
  {
    assert NatToString(5) == "5";
    ParseIntOfNatToString(5);
    assert NatToString(24) == "24";
    ParseIntOfNatToString(24);
  }

  /** A flag is on exactly when the stored text is "true"; a schedule is the stored text
      unless that is missing or empty. */
  lemma ReadCronSpec(m: map<string, string>)
    ensures ReadCron(m).cronEnabled <==> "cronEnabled" in m && m["cronEnabled"] == "true"
    ensures ReadCron(m).reportCronEnabled <==> "reportCronEnabled" in m && m["reportCronEnabled"] == "true"
    ensures "cronSchedule" in m && m["cronSchedule"] != "" ==> ReadCron(m).cronSchedule == m["cronSchedule"]
    ensures !("cronSchedule" in m && m["cronSchedule"] != "") ==> ReadCron(m).cronSchedule == "0 * * * *"
  {
  }

  /** The page and the scheduler disagree on a flag that was never stored: the scheduler
      runs the job while the page shows it off. */
  lemma MissingFlagDisagrees(ss: seq<Setting>, key: string)
    requires forall i :: 0 <= i < |ss| ==> ss[i].key != key
    ensures CronManager.Enabled(ss, key)
    ensures !Flag(Admin.SettingsObject(ss), key)
  {
    Admin.SettingsObjectSpec(ss, key);
  }

  /** A stored flag reads the same on the page and in the scheduler. */
  lemma StoredFlagAgrees(ss: seq<Setting>, key: string)
    requires UniqueSettingKeys(ss)
    requires exists i :: 0 <= i < |ss| && ss[i].key == key
    ensures CronManager.Enabled(ss, key) <==> Flag(Admin.SettingsObject(ss), key)
  {
    Admin.SettingsObjectSpec(ss, key);
    var i := CronManager.FindKey(ss, key).value;
    var j := FindSetting(ss, key).value;
    assert i == j;
  }

  /** `getCronJobDisplayName`. */
  function DisplayName(jobName: string): (r: string)
    ensures jobName !in CronManager.JobNames ==> r == jobName
  {
    match jobName
    case "paymentCleanup" => "Payment Cleanup"
    case "subscriptionExpire" => "Subscription Expiry"
    case "subscriptionReminder" => "Subscription Reminders"
    case "maintenance" => "Maintenance Cleanup"
    case "weeklyStats" => "Weekly Statistics"
    case _ => jobName
  }

  /** The five jobs get five distinct display names, none of which is itself a job name. */
  lemma DisplayNamesDistinct()
    ensures forall i, j :: 0 <= i < j < |CronManager.JobNames| ==>
              DisplayName(CronManager.JobNames[i]) != DisplayName(CronManager.JobNames[j])
    ensures forall i :: 0 <= i < |CronManager.JobNames| ==> DisplayName(CronManager.JobNames[i]) !in CronManager.JobNames
  {
  }

  /** `sendTestEmail`: an empty address is an error message and no request. */
  datatype TestEmail = MissingAddress(message: string) | Send(address: string)

  function SendTestEmail(address: string): (r: TestEmail)
    ensures r.MissingAddress? <==> address == ""
    ensures r.Send? ==> r.address == address
  {
    if address == "" then MissingAddress("Please enter an email address") else Send(address)
  }
}
