/** The `/events` endpoint of `api/events.ts`: the older variant without a period
    cache or a `ping` command, which always scrapes and formats the schedule itself
    and defaults to the current month. The forum index, the thread pages and today's
    date are inputs. */
module EventsHandler {
  import opened Text
  import opened ScheduleTypes
  import opened Messages
  import opened Calendar
  import opened TableExtractor
  import opened ScheduleAssembly
  import opened Formatter
  import opened Interactions
  import ApiHandler

  /** The period used when the command carries no `period` option. */
  const DefaultPeriod: string := "month"

  /** `periodToTitle`: the title word of a period; `month` and every unknown period read
      as the current month. */
  function PeriodToTitle(period: string): (r: string)
    ensures r == "Este Mês" <==> period != "next" && period != "today" && period != "week"
    ensures period == "next" ==> r == "Próximo Mês"
    ensures period == "today" ==> r == "Hoje"
    ensures period == "week" ==> r == "Esta Semana"
  {
    match period
    case "next" => "Próximo Mês"
    case "today" => "Hoje"
    case "week" => "Esta Semana"
    case _ => "Este Mês"
  }

  const Footer: string := "Evento 1 (15:00-19:00), Evento 2 (19:00-23:00)\nOs eventos estão sempre atualizados!"

  /** `getEmbeds(period, schedule)`: one green embed titled after the period whose
      description is the schedule formatted for that period. */
  function GetEmbeds(period: string, schedule: MonthlySchedule, now: Date): (r: seq<Embed>)
    requires schedule.month < 12 && ValidDate(now)
    ensures |r| == 1 && r[0].color == 0x00ff00 && r[0].footer == Some(Footer)
    ensures StartsWith(r[0].title, EventsTitlePrefix)
            && r[0].title[|EventsTitlePrefix|..] == PeriodToTitle(period)
    ensures r[0].description
            == Some(ViewText(schedule.threadTitle, schedule.month, schedule.year, schedule.days, period, now))
  {
    var title := EventsTitlePrefix + PeriodToTitle(period);
    assert title[..|EventsTitlePrefix|] == EventsTitlePrefix;
    [Embed(title, Some(ViewText(schedule.threadTitle, schedule.month, schedule.year, schedule.days, period, now)),
           0x00ff00, [], Some(Footer), false)]
  }

  /** The `events` command. */
  function EventsCommand(period: string, threads: seq<ThreadRef>, pageOf: string -> seq<Table>, now: Date): Response
    requires ValidDate(now) && 0 <= now.year
  {
    var schedule := GetSchedule(threads, period, now.month, now.year as nat, pageOf);
    if schedule.None? then NothingScheduled(PeriodToTitle(period))
    else
      GetScheduleIsForTarget(threads, period, now.month, now.year as nat, pageOf);
      EmbedsMessage(GetEmbeds(period, schedule.value, now))
  }

  /** `handler(req, res)` */
  function Handle(req: Request, threads: seq<ThreadRef>, pageOf: string -> seq<Table>, now: Date): Response
    requires ValidDate(now) && 0 <= now.year
  {
    if req.httpMethod != "POST" then MethodNotAllowed
    else if !req.signatureValid then BadSignature
    else if req.body.kind == 1 then Pong
    else if req.body.kind == 2 then
      if req.body.name == Some("events") then
        EventsCommand(Period(req.body, DefaultPeriod), threads, pageOf, now)
      else InvalidCommand
    else InvalidInteraction
  }

  /** The outcome of every request: 405 for a method other than POST, 401 for a bad
      signature, a PONG for a PING, a channel message for any slash command (`ping`
      included, which this endpoint does not know), and 400 for anything else. */
  lemma HandleDecisionTable(req: Request, threads: seq<ThreadRef>, pageOf: string -> seq<Table>, now: Date)
    requires ValidDate(now) && 0 <= now.year
    ensures var r := Handle(req, threads, pageOf, now);
            (r.ErrorResponse? <==> req.httpMethod != "POST" || !req.signatureValid
                                   || (req.body.kind != 1 && req.body.kind != 2))
            && (req.httpMethod != "POST" ==> r.status == 405)
            && (req.httpMethod == "POST" && !req.signatureValid ==> r.status == 401)
            && (req.httpMethod == "POST" && req.signatureValid ==>
                  (req.body.kind == 1 ==> r == Pong)
                  && (req.body.kind == 2 ==> r.InteractionResponse? && r.status == 200 && r.kind == 4)
                  && ((req.body.kind == 2 && req.body.name != Some("events")) ==> r == InvalidCommand)
                  && (req.body.kind != 1 && req.body.kind != 2 ==> r.status == 400))
  {
    var period := Period(req.body, DefaultPeriod);
    if req.httpMethod == "POST" && req.signatureValid && req.body.kind == 2 && req.body.name == Some("events") {
      var schedule := GetSchedule(threads, period, now.month, now.year as nat, pageOf);
      if schedule.Some? {
        GetScheduleIsForTarget(threads, period, now.month, now.year as nat, pageOf);
        assert Handle(req, threads, pageOf, now) == EmbedsMessage(GetEmbeds(period, schedule.value, now));
      }
    }
  }

  /** The `events` command replies "nothing scheduled" exactly when no schedule can be
      built for the period; otherwise its one embed describes the schedule of the month
      the period asks for, and for `today` it says there are no events exactly when the
      schedule has no entry for today. */
  lemma EventsCommandReply(period: string, threads: seq<ThreadRef>, pageOf: string -> seq<Table>, now: Date)
    requires ValidDate(now) && 0 <= now.year
    ensures var r := EventsCommand(period, threads, pageOf, now);
            var schedule := GetSchedule(threads, period, now.month, now.year as nat, pageOf);
            (r == NothingScheduled(PeriodToTitle(period)) <==> schedule.None?)
            && (schedule.Some? ==>
                  (schedule.value.month, schedule.value.year) == TargetMonth(period, now.month, now.year as nat)
                  && |r.data.value.embeds.value| == 1
                  && r.data.value.embeds.value[0].description.Some?
                  && (period == "today" ==>
                        (r.data.value.embeds.value[0].description.value == NoEventsToday
                         <==> FindDay(schedule.value.days, now.day).None?)))
  {
    var schedule := GetSchedule(threads, period, now.month, now.year as nat, pageOf);
    if schedule.Some? {
      GetScheduleIsForTarget(threads, period, now.month, now.year as nat, pageOf);
      var r := EventsCommand(period, threads, pageOf, now);
      assert r == EmbedsMessage(GetEmbeds(period, schedule.value, now));
      assert r.data.value.content.None?;
    }
  }

  /** A command without a `period` option is answered as if it asked for `month`. */
  lemma MissingPeriodMeansMonth(req: Request, threads: seq<ThreadRef>, pageOf: string -> seq<Table>, now: Date)
    requires ValidDate(now) && 0 <= now.year
    requires forall k :: 0 <= k < |req.body.options| ==> req.body.options[k].name != "period"
    ensures Handle(req, threads, pageOf, now)
            == Handle(req.(body := req.body.(options := [CommandOption("period", "month")])), threads, pageOf, now)
  {
    var req' := req.(body := req.body.(options := [CommandOption("period", "month")]));
    assert Period(req'.body, DefaultPeriod) == "month" by {
      assert req'.body.options[0] == CommandOption("period", "month");
    }
  }

  /** The two endpoints title a period the same way exactly for the four periods the
      command offers; an unknown period reads as this week in `api/api.ts` and as this
      month here, and so do their defaults when the option is missing. */
  lemma TitlesAgreeOnKnownPeriods(period: string)
    ensures ApiHandler.PeriodToTitle(period) == PeriodToTitle(period)
            <==> period == "next" || period == "today" || period == "month" || period == "week"
    ensures ApiHandler.PeriodToTitle(ApiHandler.DefaultPeriod) == "Esta Semana"
    ensures PeriodToTitle(DefaultPeriod) == "Este Mês"
  {
    assert "Esta Semana" != "Este Mês" by { assert "Esta Semana"[3] != "Este Mês"[3]; }
  }
}
