/** The reminder logic of `Metin2Bot` in `src/bot.ts`. The bot remembers, in
    `lastReminderSent`, which slot reminders it has already attempted, keyed by
    the calendar date; each five-minute tick may attempt the reminder of the slot
    whose window holds the current minute. Fetching the schedule, the clock, the
    channel and the Discord client are inputs or left out: a tick receives the
    schedule and the clock reading and returns the embeds it would post. */
module DiscordBot {
  import opened Text
  import opened ScheduleTypes
  import opened Messages

  /** `${now.getDate()}-${now.getMonth()}-${now.getFullYear()}` (0-based month). */
  function ReminderKey(now: Clock): string {
    NatToString(now.day) + "-" + NatToString(now.month) + "-" + NatToString(now.year)
  }

  function Event1Key(now: Clock): string {
    ReminderKey(now) + "-event1"
  }

  function Event2Key(now: Clock): string {
    ReminderKey(now) + "-event2"
  }

  /** The two keys of one date are different strings. */
  lemma KeysDistinct(now: Clock)
    ensures Event1Key(now) != Event2Key(now)
  {
    var k := ReminderKey(now);
    assert Event1Key(now)[|k| + 6] == '1';
    assert Event2Key(now)[|k| + 6] == '2';
  }

  /** `sendEventReminder(schedule, eventNumber, time)`: nothing when today has no entry
      or the selected slot (`event1` for 1, `event2` otherwise) is absent or empty. */
  function SendEventReminder(schedule: MonthlySchedule, eventNumber: nat, time: string, today: nat): (r: Option<Embed>)
    ensures r.None? <==> FindDay(schedule.days, today).None?
                         || var e := FindDay(schedule.days, today).value;
                            var slot := if eventNumber == 1 then e.event1 else e.event2;
                            slot.None? || slot.value == ""
    ensures r.Some? ==> var e := FindDay(schedule.days, today).value;
                        e.day == today && |r.value.fields| == 2
                        && r.value.fields[0].value == (if eventNumber == 1 then e.event1 else e.event2).value
                        && r.value.fields[1].value == DateText(today, schedule.month, schedule.year)
  {
    match FindDay(schedule.days, today)
    case None => None
    case Some(e) =>
      var eventName := if eventNumber == 1 then e.event1 else e.event2;
      if eventName.None? || eventName.value == "" then None
      else Some(EventReminder(eventNumber, time, eventName.value, DateText(today, schedule.month, schedule.year)))
  }

  function AsSeq(r: Option<Embed>): (s: seq<Embed>)
    ensures r.Some? ==> s == [r.value]
    ensures r.None? ==> s == []
  {
    if r.Some? then [r.value] else []
  }

  /** The Event 1 branch is taken: a schedule, the minute in the 15:00 window, and no
      attempt yet recorded for today. */
  predicate Attempts1(keys: set<string>, schedule: Option<MonthlySchedule>, now: Clock) {
    schedule.Some? && InReminderWindow(MinuteOfDay(now), Event1Time) && Event1Key(now) !in keys
  }

  predicate Attempts2(keys: set<string>, schedule: Option<MonthlySchedule>, now: Clock) {
    schedule.Some? && InReminderWindow(MinuteOfDay(now), Event2Time) && Event2Key(now) !in keys
  }

  /** The set after one tick: a key is recorded for each branch taken. */
  function TickKeys(keys: set<string>, schedule: Option<MonthlySchedule>, now: Clock): set<string> {
    var afterFirst := if Attempts1(keys, schedule, now) then keys + {Event1Key(now)} else keys;
    if Attempts2(afterFirst, schedule, now) then afterFirst + {Event2Key(now)} else afterFirst
  }

  /** The embeds one tick posts. */
  function TickSent(keys: set<string>, schedule: Option<MonthlySchedule>, now: Clock): seq<Embed> {
    var afterFirst := if Attempts1(keys, schedule, now) then keys + {Event1Key(now)} else keys;
    (if Attempts1(keys, schedule, now) then AsSeq(SendEventReminder(schedule.value, 1, "15:00", now.day)) else [])
    + (if Attempts2(afterFirst, schedule, now) then AsSeq(SendEventReminder(schedule.value, 2, "19:00", now.day)) else [])
  }

  class Metin2Bot {
    var lastReminderSent: set<string>

    constructor()
      ensures lastReminderSent == {}
    {
      lastReminderSent := {};
    }

    /** `checkUpcomingEvents()`: the key of a branch is recorded even when the reminder
        posts nothing, because `sendEventReminder` returns quietly in that case. */
    method CheckUpcomingEvents(schedule: Option<MonthlySchedule>, now: Clock) returns (sent: seq<Embed>)
      modifies this
      ensures lastReminderSent == TickKeys(old(lastReminderSent), schedule, now)
      ensures sent == TickSent(old(lastReminderSent), schedule, now)
    {
      sent := [];
      if schedule.None? {
        return;
      }
      var currentTime := now.hour * 60 + now.minute;
      var reminderKey := ReminderKey(now);
      if currentTime >= Event1Time - 15 && currentTime < Event1Time
         && reminderKey + "-event1" !in lastReminderSent {
        var r := SendEventReminder(schedule.value, 1, "15:00", now.day);
        if r.Some? {
          sent := sent + [r.value];
        }
        lastReminderSent := lastReminderSent + {reminderKey + "-event1"};
      }
      if currentTime >= Event2Time - 15 && currentTime < Event2Time
         && reminderKey + "-event2" !in lastReminderSent {
        var r := SendEventReminder(schedule.value, 2, "19:00", now.day);
        if r.Some? {
          sent := sent + [r.value];
        }
        lastReminderSent := lastReminderSent + {reminderKey + "-event2"};
      }
    }
  }

  /** `lastReminderSent` only grows, by at most one key per tick, and one tick posts at
      most one reminder; without a schedule nothing changes. */
  lemma TickGrowsByAtMostOne(keys: set<string>, schedule: Option<MonthlySchedule>, now: Clock)
    ensures keys <= TickKeys(keys, schedule, now)
    ensures |TickKeys(keys, schedule, now) - keys| <= 1
    ensures |TickSent(keys, schedule, now)| <= 1
    ensures schedule.None? ==> TickKeys(keys, schedule, now) == keys && TickSent(keys, schedule, now) == []
  {
    WindowsDisjoint(MinuteOfDay(now));
    var k := TickKeys(keys, schedule, now);
    if Attempts1(keys, schedule, now) {
      assert k - keys == {Event1Key(now)};
    } else if Attempts2(keys, schedule, now) {
      assert k - keys == {Event2Key(now)};
    } else {
      assert k - keys == {};
    }
  }

  /** A key is recorded only inside its window, and only for the date of the tick. */
  lemma NewKeysAreFromTheWindow(keys: set<string>, schedule: Option<MonthlySchedule>, now: Clock, key: string)
    requires key in TickKeys(keys, schedule, now) && key !in keys
    ensures schedule.Some?
    ensures key == Event1Key(now) ==> 885 <= MinuteOfDay(now) < 900
    ensures key == Event2Key(now) ==> 1125 <= MinuteOfDay(now) < 1140
    ensures key == Event1Key(now) || key == Event2Key(now)
  {
    KeysDistinct(now);
  }

  /** Each slot is attempted at most once per calendar date: once a tick has attempted
      it, no later tick on the same date attempts it again, whatever the minute. */
  lemma AttemptedOncePerDate(keys: set<string>, schedule: Option<MonthlySchedule>, now: Clock, later: Clock,
                             laterSchedule: Option<MonthlySchedule>)
    requires (now.day, now.month, now.year) == (later.day, later.month, later.year)
    ensures Attempts1(keys, schedule, now) ==> !Attempts1(TickKeys(keys, schedule, now), laterSchedule, later)
    ensures Attempts2(keys, schedule, now) ==> !Attempts2(TickKeys(keys, schedule, now), laterSchedule, later)
  {
    KeysDistinct(now);
  }

  /** Repeating a tick at the same minute changes nothing and posts nothing. */
  lemma TickIdempotent(keys: set<string>, schedule: Option<MonthlySchedule>, now: Clock)
    ensures TickKeys(TickKeys(keys, schedule, now), schedule, now) == TickKeys(keys, schedule, now)
    ensures TickSent(TickKeys(keys, schedule, now), schedule, now) == []
  {
    KeysDistinct(now);
    WindowsDisjoint(MinuteOfDay(now));
  }
}
