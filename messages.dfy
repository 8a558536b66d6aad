/** What the reminder entry points share: the clock reading they act on, the
    Discord embed they post, the two reminder windows and the two embeds that
    `src/bot.ts` and `src/bin/reminder.ts` build the same way. Timestamps, which
    only echo the clock, are not part of the embeds here. */
module Messages {
  import opened Text
  import opened ScheduleTypes

  /** A field of an embed. */
  datatype Field = Field(name: string, value: string, inline: bool)

  /** A Discord embed: `description` and `footer` may be absent; `unavailable` is the
      marker a cached period file carries when nothing is scheduled. */
  datatype Embed = Embed(title: string, description: Option<string>, color: nat,
                         fields: seq<Field>, footer: Option<string>, unavailable: bool)

  /** A wall-clock reading: Lisbon time as `portugalNow()` gives it to the scripts, the
      host's local time as `new Date()` gives it to the bot; `month` is 0-based. */
  datatype Clock = Clock(year: nat, month: nat, day: nat, hour: nat, minute: nat, second: nat, millisecond: nat)

  predicate ValidClock(c: Clock) {
    c.month < 12 && 1 <= c.day <= 31 && c.hour < 24 && c.minute < 60 && c.second < 60 && c.millisecond < 1000
  }

  /** `currentHour * 60 + currentMinute` */
  function MinuteOfDay(c: Clock): nat {
    c.hour * 60 + c.minute
  }

  /** Event 1 starts at 15:00 and Event 2 at 19:00, in minutes since midnight. */
  const Event1Time: nat := 15 * 60
  const Event2Time: nat := 19 * 60

  /** `currentTime >= eventTime - 15 && currentTime < eventTime` */
  predicate InReminderWindow(t: int, eventTime: int) {
    eventTime - 15 <= t < eventTime
  }

  /** The two windows are 14:45..14:59 and 18:45..18:59, so no minute lies in both. */
  lemma WindowsDisjoint(t: int)
    ensures InReminderWindow(t, Event1Time) <==> 885 <= t < 900
    ensures InReminderWindow(t, Event2Time) <==> 1125 <= t < 1140
    ensures !(InReminderWindow(t, Event1Time) && InReminderWindow(t, Event2Time))
  {
  }

  /** `${day}/${month + 1}/${year}` */
  function DateText(day: nat, month: nat, year: nat): (r: string)
    ensures |NatToString(day)| < |r| && r[..|NatToString(day)|] == NatToString(day) && r[|NatToString(day)|] == '/'
  {
    var r := NatToString(day) + "/" + NatToString(month + 1) + "/" + NatToString(year);
    assert r[..|NatToString(day)|] == NatToString(day);
    r
  }

  /** The date text reads back as the day, the 1-based month and the year: three
      non-empty runs of digits separated by two slashes. */
  lemma DateTextReadBack(day: nat, month: nat, year: nat)
    ensures var r := DateText(day, month, year);
            exists a, b :: 0 < a && a + 1 < b && b + 1 < |r| && r[a] == '/' && r[b] == '/'
                           && AllDigits(r[..a]) && AllDigits(r[a + 1..b]) && AllDigits(r[b + 1..])
                           && DecimalValue(r[..a]) == day && DecimalValue(r[a + 1..b]) == month + 1
                           && DecimalValue(r[b + 1..]) == year
  {
    var d, m, y := NatToString(day), NatToString(month + 1), NatToString(year);
    NatToStringRoundTrip(day);
    NatToStringRoundTrip(month + 1);
    NatToStringRoundTrip(year);
    SlashJoinSlices(d, m, y);
    var a, b := |d|, |d| + 1 + |m|;
    assert DateText(day, month, year) == d + "/" + m + "/" + y;
  }

  /** Where the parts of `d/m/y` sit in the joined text. */
  lemma SlashJoinSlices(d: string, m: string, y: string)
    ensures var r := d + "/" + m + "/" + y;
            |r| == |d| + |m| + |y| + 2 && r[|d|] == '/' && r[|d| + 1 + |m|] == '/'
            && r[..|d|] == d && r[|d| + 1..|d| + 1 + |m|] == m && r[|d| + 1 + |m| + 1..] == y
  {
    var r := d + "/" + m + "/" + y;
    assert r == d + ("/" + m + "/" + y);
    assert r[|d| + 1..] == m + "/" + y;
  }

  /** `slot ?? fallback` */
  function OrElse(slot: Option<string>, fallback: string): string
  {
    if slot.Some? then slot.value else fallback
  }

  const DailyReminderTitle: string := "🌅 Daily Events Reminder"

  /** The daily reminder of `src/bot.ts` and `src/bin/reminder.ts`: nothing without a
      schedule or without an entry for today; otherwise the date line and one field per
      slot, an absent slot reading `No event`. */
  function DailyReminder(schedule: Option<MonthlySchedule>, today: nat): (r: Option<Embed>)
    ensures r.None? <==> schedule.None? || FindDay(schedule.value.days, today).None?
    ensures r.Some? ==>
              var e := FindDay(schedule.value.days, today).value;
              e.day == today && |r.value.fields| == 2
              && r.value.fields[0].value == OrElse(e.event1, "No event")
              && r.value.fields[1].value == OrElse(e.event2, "No event")
              && r.value.description == Some("**Today's Tigerghost Events ("
                                             + DateText(today, schedule.value.month, schedule.value.year) + ")**")
  {
    if schedule.None? then None
    else
      match FindDay(schedule.value.days, today)
      case None => None
      case Some(e) =>
        Some(Embed(DailyReminderTitle,
                   Some("**Today's Tigerghost Events (" + DateText(today, schedule.value.month, schedule.value.year) + ")**"),
                   0xffa500,
                   [Field("🕐 Event 1 (15:00-19:00)", OrElse(e.event1, "No event"), true),
                    Field("🕐 Event 2 (19:00-23:00)", OrElse(e.event2, "No event"), true)],
                   None, false))
  }

  /** The "starting soon" embed for one slot, named `eventName`, on the given date: its
      description names the slot's number first and its start time last. */
  function EventReminder(eventNumber: nat, time: string, eventName: string, date: string): (r: Embed)
    ensures |r.fields| == 2 && r.fields[0].value == eventName && r.fields[1].value == date
    ensures r.description.Some?
            && StartsWith(r.description.value, "**Event " + NatToString(eventNumber) + " ")
            && EndsWith(r.description.value, " at " + time + "**")
  {
    var head := "**Event " + NatToString(eventNumber) + " ";
    var tail := " at " + time + "**";
    var d := head + "starts in 15 minutes" + tail;
    assert d[..|head|] == head && d[|d| - |tail|..] == tail;
    Embed("⏰ Event Starting Soon!", Some(d), 0xff0000,
          [Field("🎮 Event", eventName, true), Field("📅 Date", date, true)],
          None, false)
  }
}
