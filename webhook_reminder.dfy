/** `src/bin/reminder.ts`: a stateless run of the webhook reminder. At 08:00 it posts
    the daily reminder; at any other minute it posts the "starting soon" reminder
    of each slot whose window holds the minute, with no record of earlier runs.
    The schedule fetch (by period) and the clock are inputs; the webhook POST is
    left out and a run returns the embeds it would post. */
module WebhookReminder {
  import opened Text
  import opened ScheduleTypes
  import opened Messages
  import DiscordBot

  /** `checkUpcomingEvents()`: nothing without a schedule or without an entry for today;
      otherwise one reminder per window holding the minute, an absent slot named `Unknown`,
      dated `<day>/<month+1>/<year>`, and announcing Event 1 at 15:00 or Event 2 at 19:00. */
  function CheckUpcomingEvents(schedule: Option<MonthlySchedule>, now: Clock): (sent: seq<Embed>)
    ensures |sent| <= 1
    ensures |sent| == 1 <==> schedule.Some? && FindDay(schedule.value.days, now.day).Some?
                             && (885 <= MinuteOfDay(now) < 900 || 1125 <= MinuteOfDay(now) < 1140)
    ensures |sent| == 1 ==>
              var e := FindDay(schedule.value.days, now.day).value;
              |sent[0].fields| == 2 && sent[0].fields[0].value
              == (if MinuteOfDay(now) < 900 then OrElse(e.event1, "Unknown") else OrElse(e.event2, "Unknown"))
              && sent[0].fields[1].value == DateText(now.day, schedule.value.month, schedule.value.year)
    ensures |sent| == 1 ==>
              sent[0].description.Some?
              && (MinuteOfDay(now) < 900 ==> StartsWith(sent[0].description.value, "**Event 1 ")
                                             && EndsWith(sent[0].description.value, " at 15:00**"))
              && (MinuteOfDay(now) >= 900 ==> StartsWith(sent[0].description.value, "**Event 2 ")
                                              && EndsWith(sent[0].description.value, " at 19:00**"))
  {
    assert NatToString(1) == "1" && NatToString(2) == "2";
    WindowsDisjoint(MinuteOfDay(now));
    if schedule.None? then []
    else
      var currentTime := MinuteOfDay(now);
      match FindDay(schedule.value.days, now.day)
      case None => []
      case Some(e) =>
        var date := DateText(now.day, schedule.value.month, schedule.value.year);
        (if InReminderWindow(currentTime, Event1Time)
         then [EventReminder(1, "15:00", OrElse(e.event1, "Unknown"), date)] else [])
        + (if InReminderWindow(currentTime, Event2Time)
           then [EventReminder(2, "19:00", OrElse(e.event2, "Unknown"), date)] else [])
  }

  /** `main()`: the daily reminder, from the schedule `getSchedule('week')` returns,
      exactly at 08:00; otherwise the upcoming-event check on `getSchedule()`. */
  function RunReminder(scheduleFor: string -> Option<MonthlySchedule>, now: Clock): (sent: seq<Embed>)
  {
    if now.hour == 8 && now.minute == 0 then
      match DailyReminder(scheduleFor("week"), now.day)
      case None => []
      case Some(embed) => [embed]
    else
      CheckUpcomingEvents(scheduleFor("month"), now)
  }

  /** A run posts at most one embed: the daily reminder exactly at 08:00 (when there is an
      entry for today), otherwise at most one "starting soon" reminder, and never both
      kinds, because 08:00 lies in neither window. */
  lemma RunPostsOneKind(scheduleFor: string -> Option<MonthlySchedule>, now: Clock)
    ensures |RunReminder(scheduleFor, now)| <= 1
    ensures |RunReminder(scheduleFor, now)| == 1 ==>
              (RunReminder(scheduleFor, now)[0].title == DailyReminderTitle <==> now.hour == 8 && now.minute == 0)
    ensures now.hour == 8 && now.minute == 0 ==>
              (|RunReminder(scheduleFor, now)| == 1 <==> DailyReminder(scheduleFor("week"), now.day).Some?)
  {
    var sent := RunReminder(scheduleFor, now);
    if !(now.hour == 8 && now.minute == 0) && |sent| == 1 {
      var e := FindDay(scheduleFor("month").value.days, now.day).value;
      var date := DateText(now.day, scheduleFor("month").value.month, scheduleFor("month").value.year);
      WindowsDisjoint(MinuteOfDay(now));
      assert sent[0] == EventReminder(1, "15:00", OrElse(e.event1, "Unknown"), date)
             || sent[0] == EventReminder(2, "19:00", OrElse(e.event2, "Unknown"), date);
      assert "⏰ Event Starting Soon!"[0] != DailyReminderTitle[0];
    }
  }

  /** Where the bot has not yet recorded today's keys and both slots of today's entry
      are named, one bot tick posts exactly what one webhook check posts; the two differ
      only in the bot's memory and in the bot's silence on absent or empty slots, which
      the webhook names `Unknown` or posts as they are. */
  lemma BotTickMatchesWebhookCheck(keys: set<string>, schedule: Option<MonthlySchedule>, now: Clock)
    requires schedule.Some? && FindDay(schedule.value.days, now.day).Some?
    requires var e := FindDay(schedule.value.days, now.day).value;
             e.event1.Some? && e.event1.value != "" && e.event2.Some? && e.event2.value != ""
    requires DiscordBot.Event1Key(now) !in keys && DiscordBot.Event2Key(now) !in keys
    ensures DiscordBot.TickSent(keys, schedule, now) == CheckUpcomingEvents(schedule, now)
  {
    WindowsDisjoint(MinuteOfDay(now));
    DiscordBot.KeysDistinct(now);
  }
}
