/** The `/events` endpoint of `api/api.ts`. It answers from the precomputed period
    file when there is one, and otherwise builds the embed from a freshly scraped
    schedule. The period file (`fetchPeriodFile`), the forum index, the thread pages
    and the formatted clock reading are inputs. */
module ApiHandler {
  import opened Text
  import opened ScheduleTypes
  import opened Messages
  import opened TableExtractor
  import opened ScheduleAssembly
  import opened Interactions

  /** The period used when the command carries no `period` option. */
  const DefaultPeriod: string := "week"

  /** `periodToTitle`: the title word of a period; `week` and every unknown period read
      as the current week. */
  function PeriodToTitle(period: string): (r: string)
    ensures r == "Esta Semana" <==> period != "next" && period != "today" && period != "month"
    ensures period == "next" ==> r == "Próximo Mês"
    ensures period == "today" ==> r == "Hoje"
    ensures period == "month" ==> r == "Este Mês"
  {
    match period
    case "next" => "Próximo Mês"
    case "today" => "Hoje"
    case "month" => "Este Mês"
    case _ => "Esta Semana"
  }

  const FooterPrefix: string := "Evento 1 (15:00-19:00), Evento 2 (19:00-23:00)\nAtualizado a "

  /** `getEmbeds(period, schedule)`: one green embed titled after the period, with the
      update time in the footer. The description and the all-day note read members of
      the string `formatScheduleForDiscord` returns, which are undefined, so the embed
      has no description and the footer no note. */
  function GetEmbeds(period: string, formatted: string): (r: seq<Embed>)
    ensures |r| == 1 && r[0].description.None? && r[0].color == 0x00ff00
    ensures StartsWith(r[0].title, EventsTitlePrefix)
            && r[0].title[|EventsTitlePrefix|..] == PeriodToTitle(period)
    ensures r[0].footer == Some(FooterPrefix + formatted)
  {
    var title := EventsTitlePrefix + PeriodToTitle(period);
    assert title[..|EventsTitlePrefix|] == EventsTitlePrefix;
    [Embed(title, None, 0x00ff00, [], Some(FooterPrefix + formatted), false)]
  }

  /** The `events` command: the cached period file first, then the scraped schedule. */
  function EventsCommand(period: string, periodFile: string -> Option<seq<Embed>>,
                         threads: seq<ThreadRef>, pageOf: string -> seq<Table>,
                         month: nat, year: nat, formatted: string): Response
    requires month < 12
  {
    var computed := periodFile(period);
    if computed.Some? then
      if |computed.value| > 0 && computed.value[0].unavailable then NothingScheduled(PeriodToTitle(period))
      else EmbedsMessage(computed.value)
    else
      var schedule := GetSchedule(threads, period, month, year, pageOf);
      if schedule.None? then NothingScheduled(PeriodToTitle(period))
      else EmbedsMessage(GetEmbeds(period, formatted))
  }

  /** `handler(req, res)` */
  function Handle(req: Request, periodFile: string -> Option<seq<Embed>>,
                  threads: seq<ThreadRef>, pageOf: string -> seq<Table>,
                  month: nat, year: nat, formatted: string): Response
    requires month < 12
  {
    if req.httpMethod != "POST" then MethodNotAllowed
    else if !req.signatureValid then BadSignature
    else if req.body.kind == 1 then Pong
    else if req.body.kind == 2 then
      if req.body.name == Some("events") then
        EventsCommand(Period(req.body, DefaultPeriod), periodFile, threads, pageOf, month, year, formatted)
      else if req.body.name == Some("ping") then Message("Hey!", None)
      else InvalidCommand
    else InvalidInteraction
  }

  /** The outcome of every request: a method other than POST is refused before the
      signature is looked at, a bad signature before the body is, a PING is answered
      with a PONG, a slash command always gets a channel message, and any other
      interaction type is a 400. */
  lemma HandleDecisionTable(req: Request, periodFile: string -> Option<seq<Embed>>,
                            threads: seq<ThreadRef>, pageOf: string -> seq<Table>,
                            month: nat, year: nat, formatted: string)
    requires month < 12
    ensures var r := Handle(req, periodFile, threads, pageOf, month, year, formatted);
            (r.ErrorResponse? <==> req.httpMethod != "POST" || !req.signatureValid
                                   || (req.body.kind != 1 && req.body.kind != 2))
            && (req.httpMethod != "POST" ==> r.status == 405)
            && (req.httpMethod == "POST" && !req.signatureValid ==> r.status == 401)
            && (req.httpMethod == "POST" && req.signatureValid ==>
                  (req.body.kind == 1 ==> r == Pong)
                  && (req.body.kind == 2 ==> r.InteractionResponse? && r.status == 200 && r.kind == 4)
                  && (req.body.kind == 2 && req.body.name == Some("ping") ==> r.data.value.content == Some("Hey!"))
                  && ((req.body.kind == 2 && req.body.name != Some("ping") && req.body.name != Some("events"))
                        ==> r == InvalidCommand)
                  && (req.body.kind != 1 && req.body.kind != 2 ==> r.status == 400))
  {
    var period := Period(req.body, DefaultPeriod);
    if req.httpMethod == "POST" && req.signatureValid && req.body.kind == 2 && req.body.name == Some("events") {
      var computed := periodFile(period);
      if computed.None? && GetSchedule(threads, period, month, year, pageOf).Some? {
        assert Handle(req, periodFile, threads, pageOf, month, year, formatted) == EmbedsMessage(GetEmbeds(period, formatted));
      }
    }
  }

  /** A cached period file wins: its embeds are returned exactly as stored (an empty
      list included) unless the first one is marked unavailable, in which case the
      ephemeral "nothing scheduled" reply is sent; either way the forum is not consulted. */
  lemma CacheTakesPriority(period: string, periodFile: string -> Option<seq<Embed>>,
                           threads: seq<ThreadRef>, pageOf: string -> seq<Table>,
                           threads': seq<ThreadRef>, pageOf': string -> seq<Table>,
                           month: nat, year: nat, formatted: string)
    requires month < 12 && periodFile(period).Some?
    ensures EventsCommand(period, periodFile, threads, pageOf, month, year, formatted)
            == EventsCommand(period, periodFile, threads', pageOf', month, year, formatted)
    ensures var cached := periodFile(period).value;
            var r := EventsCommand(period, periodFile, threads, pageOf, month, year, formatted);
            (|cached| > 0 && cached[0].unavailable ==> r.data.value.flags == Some(Ephemeral)
                                                       && r.data.value.embeds.None?)
            && (!(|cached| > 0 && cached[0].unavailable) ==> r.data.value.embeds == Some(cached))
  {
  }

  /** Without a cached file, the reply is "nothing scheduled" exactly when no schedule
      can be built for the period, and otherwise carries one embed for that period. */
  lemma ScrapeWhenNotCached(period: string, periodFile: string -> Option<seq<Embed>>,
                            threads: seq<ThreadRef>, pageOf: string -> seq<Table>,
                            month: nat, year: nat, formatted: string)
    requires month < 12 && periodFile(period).None?
    ensures var r := EventsCommand(period, periodFile, threads, pageOf, month, year, formatted);
            (r == NothingScheduled(PeriodToTitle(period)) <==>
               GetSchedule(threads, period, month, year, pageOf).None?)
            && (GetSchedule(threads, period, month, year, pageOf).Some? ==>
                  |r.data.value.embeds.value| == 1
                  && r.data.value.embeds.value[0].title == EventsTitlePrefix + PeriodToTitle(period))
  {
    var r := EventsCommand(period, periodFile, threads, pageOf, month, year, formatted);
    if GetSchedule(threads, period, month, year, pageOf).Some? {
      assert r.data.value.content.None?;
    }
  }

  /** A command without a `period` option is answered as if it asked for `week`. */
  lemma MissingPeriodMeansWeek(req: Request, periodFile: string -> Option<seq<Embed>>,
                               threads: seq<ThreadRef>, pageOf: string -> seq<Table>,
                               month: nat, year: nat, formatted: string)
    requires month < 12
    requires forall k :: 0 <= k < |req.body.options| ==> req.body.options[k].name != "period"
    ensures Handle(req, periodFile, threads, pageOf, month, year, formatted)
            == Handle(req.(body := req.body.(options := [CommandOption("period", "week")])),
                      periodFile, threads, pageOf, month, year, formatted)
  {
    var req' := req.(body := req.body.(options := [CommandOption("period", "week")]));
    assert Period(req'.body, DefaultPeriod) == "week" by {
      assert req'.body.options[0] == CommandOption("period", "week");
    }
  }
}
