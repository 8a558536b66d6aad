/** `src/bin/now.ts`: the hourly countdown. An hour before each slot starts (at 14:xx
    for the 15:00 slot, at 18:xx for the 19:00 slot) it posts how many minutes are
    left, mentioning the events role, and adds a field for today's additional event
    when there is one. Its entries carry an `extra` label the scraper's own
    `DailyEvents` does not have. The schedule fetch and the clock are inputs; the
    webhook POST is left out and a run returns the payloads it would post. */
module Countdown {
  import opened Text
  import opened ScheduleTypes
  import opened Messages

  /** A day of the schedule as this entry point reads it. */
  datatype CountdownDay = CountdownDay(day: nat, event1: Option<string>, event2: Option<string>, extra: Option<string>)

  /** `schedule.days.find((d) => d.day === today)` */
  function FindEntry(days: seq<CountdownDay>, n: nat): (r: Option<CountdownDay>)
    ensures r.None? <==> forall k :: 0 <= k < |days| ==> days[k].day != n
    ensures r.Some? ==> exists k :: 0 <= k < |days| && days[k] == r.value && r.value.day == n
                                    && forall j :: 0 <= j < k ==> days[j].day != n
  {
    if |days| == 0 then None
    else if days[0].day == n then Some(days[0])
    else
      var r := FindEntry(days[1..], n);
      assert forall k :: 1 <= k < |days| ==> days[k] == days[1..][k - 1];
      r
  }

  /** One row of the trigger table. */
  datatype Trigger = Trigger(triggerHour: nat, eventHour: nat, slotLabel: string, name: Option<string>)

  /** The trigger table for today's entry: the hour before each slot, the slot's start
      hour, its label and its name. */
  function Triggers(e: CountdownDay): (ts: seq<Trigger>)
    ensures |ts| == 2
    ensures forall k :: 0 <= k < |ts| ==> ts[k].triggerHour + 1 == ts[k].eventHour
  {
    [Trigger(14, 15, "Evento 1", e.event1), Trigger(18, 19, "Evento 2", e.event2)]
  }

  /** A webhook payload: a plain-text content line and the embeds. */
  datatype Payload = Payload(content: string, embeds: seq<Embed>)

  const RoleMention: string := "<@&1410116889740316684>"
  const CountdownTitle: string := "📅 Contagem Decrescente!"

  /** `Math.floor((today at eventHour:00:00.000 - now) / 60000)`. The divisor is positive,
      so the floor is Dafny's division. */
  function MinutesUntil(now: Clock, eventHour: nat): int {
    (eventHour * 3600000 - (now.hour * 3600000 + now.minute * 60000 + now.second * 1000 + now.millisecond)) / 60000
  }

  /** Within the hour before the slot, the countdown is the whole minutes left: 60 at
      exactly hh:00:00.000, otherwise 59 - minute, so it always lies in 0..60. */
  lemma MinutesInTriggerHour(now: Clock, eventHour: nat)
    requires ValidClock(now) && now.hour + 1 == eventHour
    ensures 0 <= MinutesUntil(now, eventHour) <= 60
    ensures MinutesUntil(now, eventHour)
            == if now.second == 0 && now.millisecond == 0 then 60 - now.minute else 59 - now.minute
  {
    var rest := now.second * 1000 + now.millisecond;
    var ms := 3600000 - now.minute * 60000 - rest;
    assert eventHour * 3600000 - (now.hour * 3600000 + now.minute * 60000 + rest) == ms;
    if rest == 0 {
      assert ms == (60 - now.minute) * 60000;
    } else {
      assert ms == (59 - now.minute) * 60000 + (60000 - rest);
      assert 0 < 60000 - rest <= 60000 - 1;
    }
  }

  /** `${name}` where an absent slot prints as `undefined`. */
  function NameText(name: Option<string>): (r: string)
    ensures name.Some? ==> r == name.value
  {
    if name.Some? then name.value else "undefined"
  }

  /** `if (todayEvents.extra)`: present and not the empty string. */
  predicate Truthy(s: Option<string>) {
    s.Some? && s.value != ""
  }

  /** The payload posted for trigger `t` with `minutes` left. */
  function CountdownPayload(t: Trigger, minutes: nat, extra: Option<string>): (p: Payload)
    ensures p.content == RoleMention && |p.embeds| == 1 && p.embeds[0].title == CountdownTitle
    ensures p.embeds[0].description.Some?
            && StartsWith(p.embeds[0].description.value, "**" + t.slotLabel + "**: " + NameText(t.name))
    ensures |p.embeds[0].fields| == 1 <==> Truthy(extra)
    ensures EndsWith(p.embeds[0].description.value, " " + NatToString(minutes) + " minutos")
    ensures Truthy(extra) ==> p.embeds[0].fields[0].name == "Evento Adicional"
                              && Contains(p.embeds[0].fields[0].value, extra.value)
  {
    var head := "**" + t.slotLabel + "**: " + NameText(t.name);
    var tail := " " + NatToString(minutes) + " minutos";
    var description := head + "\n⏰ Começa dentro de " + NatToString(minutes) + " minutos";
    assert description[..|head|] == head;
    assert description == (head + "\n⏰ Começa dentro de") + tail;
    assert description[|description| - |tail|..] == tail;
    var embed := Embed(CountdownTitle, Some(description), 0xffa500, [], None, false);
    var embed' := if Truthy(extra) then
                    var intro := "Não te esqueças do evento adicional de hoje:\n";
                    var value := intro + extra.value + "!";
                    assert OccursAt(value, extra.value, |intro|) by {
                      assert value[|intro|..|intro| + |extra.value|] == extra.value;
                    }
                    ContainsIffOccurs(value, extra.value);
                    embed.(fields := [Field("Evento Adicional", value, false)])
                  else embed;
    Payload(RoleMention, [embed'])
  }

  /** The payloads the loop over `ts` posts, in table order. */
  function CountdownsOf(ts: seq<Trigger>, e: CountdownDay, now: Clock): (ps: seq<Payload>)
    requires ValidClock(now)
    requires forall k :: 0 <= k < |ts| ==> ts[k].triggerHour + 1 == ts[k].eventHour
    ensures |ps| == |set k | 0 <= k < |ts| && ts[k].triggerHour == now.hour|
    ensures forall k :: 0 <= k < |ps| ==>
              ps[k].content == RoleMention && |ps[k].embeds| == 1 && ps[k].embeds[0].description.Some?
              && (|ps[k].embeds[0].fields| == 1 <==> Truthy(e.extra))
  {
    if ts == [] then []
    else
      var front := ts[..|ts| - 1];
      var last := ts[|ts| - 1];
      assert (set k | 0 <= k < |ts| && ts[k].triggerHour == now.hour)
             == (set k | 0 <= k < |front| && front[k].triggerHour == now.hour)
                + (if last.triggerHour == now.hour then {|ts| - 1} else {});
      if now.hour == last.triggerHour then
        MinutesInTriggerHour(now, last.eventHour);
        CountdownsOf(front, e, now) + [CountdownPayload(last, MinutesUntil(now, last.eventHour), e.extra)]
      else
        CountdownsOf(front, e, now)
  }

  /** What a run posts, from the schedule `getSchedule('today')` returns. */
  function Countdowns(schedule: Option<seq<CountdownDay>>, now: Clock): seq<Payload>
    requires ValidClock(now)
  {
    if schedule.None? then []
    else
      match FindEntry(schedule.value, now.day)
      case None => []
      case Some(e) => CountdownsOf(Triggers(e), e, now)
  }

  /** `sendDailyReminder()`: the loop over the trigger table. */
  method SendDailyReminder(schedule: Option<seq<CountdownDay>>, now: Clock) returns (sent: seq<Payload>)
    requires ValidClock(now)
    ensures sent == Countdowns(schedule, now)
  {
    sent := [];
    if schedule.None? {
      return;
    }
    var todayEvents := FindEntry(schedule.value, now.day);
    if todayEvents.None? {
      return;
    }
    var e := todayEvents.value;
    var events := Triggers(e);
    for k := 0 to |events|
      invariant sent == CountdownsOf(events[..k], e, now)
    {
      var t := events[k];
      assert events[..k + 1][..k] == events[..k] && events[..k + 1][k] == t;
      if now.hour == t.triggerHour {
        MinutesInTriggerHour(now, t.eventHour);
        var minutes := MinutesUntil(now, t.eventHour);
        var embed := Embed(CountdownTitle,
                           Some("**" + t.slotLabel + "**: " + NameText(t.name) + "\n⏰ Começa dentro de "
                                + NatToString(minutes) + " minutos"),
                           0xffa500, [], None, false);
        if e.extra.Some? && e.extra.value != "" {
          embed := embed.(fields := [Field("Evento Adicional",
                                           "Não te esqueças do evento adicional de hoje:\n" + e.extra.value + "!", false)]);
        }
        sent := sent + [Payload(RoleMention, [embed])];
      }
    }
    assert events[..|events|] == events;
  }

  /** For today's entry, the loop posts the countdown of the trigger whose hour it is,
      and nothing in any other hour. */
  lemma TableRun(e: CountdownDay, now: Clock)
    requires ValidClock(now)
    ensures now.hour != 14 && now.hour != 18 ==> CountdownsOf(Triggers(e), e, now) == []
    ensures now.hour == 14 ==> (0 <= MinutesUntil(now, 15)
              && CountdownsOf(Triggers(e), e, now) == [CountdownPayload(Triggers(e)[0], MinutesUntil(now, 15), e.extra)])
    ensures now.hour == 18 ==> (0 <= MinutesUntil(now, 19)
              && CountdownsOf(Triggers(e), e, now) == [CountdownPayload(Triggers(e)[1], MinutesUntil(now, 19), e.extra)])
  {
    var ts := Triggers(e);
    assert ts[..|ts| - 1] == [ts[0]] && [ts[0]][..0] == [];
    if now.hour == 14 {
      MinutesInTriggerHour(now, 15);
    } else if now.hour == 18 {
      MinutesInTriggerHour(now, 19);
    }
  }

  /** A run posts at most one countdown, because the two trigger hours differ; it posts
      one exactly when there is a schedule, an entry for today and the hour is 14 or
      18, and that countdown names the slot starting in the next hour. */
  lemma OneCountdownPerRun(schedule: Option<seq<CountdownDay>>, now: Clock)
    requires ValidClock(now)
    ensures |Countdowns(schedule, now)| <= 1
    ensures |Countdowns(schedule, now)| == 1 <==>
              schedule.Some? && FindEntry(schedule.value, now.day).Some? && (now.hour == 14 || now.hour == 18)
    ensures |Countdowns(schedule, now)| == 1 ==>
              var e := FindEntry(schedule.value, now.day).value;
              var d := Countdowns(schedule, now)[0].embeds[0].description.value;
              (now.hour == 14 ==> StartsWith(d, "**Evento 1**: " + NameText(e.event1)))
              && (now.hour == 18 ==> StartsWith(d, "**Evento 2**: " + NameText(e.event2)))
              && (|Countdowns(schedule, now)[0].embeds[0].fields| == 1 <==> Truthy(e.extra))
  {
    if schedule.Some? && FindEntry(schedule.value, now.day).Some? {
      var e := FindEntry(schedule.value, now.day).value;
      var ts := Triggers(e);
      TableRun(e, now);
      assert Countdowns(schedule, now) == CountdownsOf(ts, e, now);
      if now.hour == 14 {
        assert ts[0] == Trigger(14, 15, "Evento 1", e.event1);
        assert "**" + "Evento 1" + "**: " == "**Evento 1**: ";
      } else if now.hour == 18 {
        assert ts[1] == Trigger(18, 19, "Evento 2", e.event2);
        assert "**" + "Evento 2" + "**: " == "**Evento 2**: ";
      }
    }
  }

  /** The countdown a run posts tells the whole minutes left until the slot starts: 60
      minus the minute on the exact minute, 59 minus the minute otherwise. */
  lemma CountdownSaysMinutesLeft(schedule: Option<seq<CountdownDay>>, now: Clock)
    requires ValidClock(now) && |Countdowns(schedule, now)| == 1
    ensures EndsWith(Countdowns(schedule, now)[0].embeds[0].description.value,
                     " " + NatToString(if now.second == 0 && now.millisecond == 0 then 60 - now.minute
                                       else 59 - now.minute) + " minutos")
  {
    OneCountdownPerRun(schedule, now);
    var e := FindEntry(schedule.value, now.day).value;
    TableRun(e, now);
    var eventHour := if now.hour == 14 then 15 else 19;
    MinutesInTriggerHour(now, eventHour);
    var t := Triggers(e)[if now.hour == 14 then 0 else 1];
    assert Countdowns(schedule, now) == [CountdownPayload(t, MinutesUntil(now, eventHour), e.extra)];
  }
}
