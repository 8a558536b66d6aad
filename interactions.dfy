/** What the two Discord interaction endpoints (`api/api.ts`, `api/events.ts`) share:
    the request as the handler sees it once the body has been buffered, and the
    responses it can send. Signature checking (`verifyKey`) is left out; its verdict
    is a field of the request. An interaction without `data` has no command name, and
    one without `options` has an empty option list. */
module Interactions {
  import opened Text
  import opened ScheduleTypes
  import opened Messages

  /** One option of a slash command. */
  datatype CommandOption = CommandOption(name: string, value: string)

  /** The parsed interaction: its `type`, the command name and the options. */
  datatype Interaction = Interaction(kind: int, name: Option<string>, options: seq<CommandOption>)

  /** A request: the HTTP method, whether the Ed25519 signature checked out, and the body. */
  datatype Request = Request(httpMethod: string, signatureValid: bool, body: Interaction)

  /** The `data` of an interaction response; absent members are `None`. */
  datatype ResponseData = ResponseData(content: Option<string>, embeds: Option<seq<Embed>>, flags: Option<nat>)

  /** An HTTP response: a plain error, or an interaction response (status 200 unless set). */
  datatype Response =
    | ErrorResponse(status: nat, error: string)
    | InteractionResponse(status: nat, kind: nat, data: Option<ResponseData>)

  /** Discord's flag for a reply only the invoking user sees. */
  const Ephemeral: nat := 64

  /** `{ type: 1 }`: the answer to Discord's PING. */
  const Pong: Response := InteractionResponse(200, 1, None)

  const MethodNotAllowed: Response := ErrorResponse(405, "Method not allowed")
  const BadSignature: Response := ErrorResponse(401, "Bad request signature")
  const InvalidInteraction: Response := ErrorResponse(400, "Interação inválida")

  /** A channel message with text content and, when given, flags. */
  function Message(content: string, flags: Option<nat>): Response
  {
    InteractionResponse(200, 4, Some(ResponseData(Some(content), None, flags)))
  }

  /** A channel message carrying embeds and nothing else. */
  function EmbedsMessage(embeds: seq<Embed>): Response
  {
    InteractionResponse(200, 4, Some(ResponseData(None, Some(embeds), None)))
  }

  /** The `❌ Não há nada agendado (<title>).` reply: a channel message only the invoking
      user sees, with text naming the period and no embeds. */
  function NothingScheduled(title: string): (r: Response)
    ensures r.InteractionResponse? && r.status == 200 && r.kind == 4 && r.data.Some?
    ensures r.data.value.flags == Some(Ephemeral) && r.data.value.embeds.None?
    ensures r.data.value.content.Some? && Contains(r.data.value.content.value, title)
  {
    var prefix := "❌ Não há nada agendado (";
    var text := prefix + title + ").";
    assert OccursAt(text, title, |prefix|) by {
      assert text[|prefix|..|prefix| + |title|] == title;
    }
    ContainsIffOccurs(text, title);
    Message(text, Some(Ephemeral))
  }

  const InvalidCommand: Response := Message("❌ Comando inválido", Some(Ephemeral))

  /** The title prefix of the schedule embed. */
  const EventsTitlePrefix: string := "📅 Eventos Metin2 Tigerghost - "

  /** `options?.find((o) => o.name === name)` */
  function FindOption(options: seq<CommandOption>, name: string): (r: Option<CommandOption>)
    ensures r.None? <==> forall k :: 0 <= k < |options| ==> options[k].name != name
    ensures r.Some? ==> exists k :: 0 <= k < |options| && options[k] == r.value && r.value.name == name
                                    && forall j :: 0 <= j < k ==> options[j].name != name
  {
    if |options| == 0 then None
    else if options[0].name == name then Some(options[0])
    else
      var r := FindOption(options[1..], name);
      assert forall k :: 1 <= k < |options| ==> options[k] == options[1..][k - 1];
      r
  }

  /** `periodOption?.value ?? fallback`: the value of the first `period` option, or the
      endpoint's default when there is none. */
  function Period(i: Interaction, fallback: string): (r: string)
    ensures (forall k :: 0 <= k < |i.options| ==> i.options[k].name != "period") ==> r == fallback
    ensures (exists k :: 0 <= k < |i.options| && i.options[k].name == "period") ==>
              exists k :: 0 <= k < |i.options| && i.options[k] == CommandOption("period", r)
                          && forall j :: 0 <= j < k ==> i.options[j].name != "period"
  {
    match FindOption(i.options, "period")
    case None => fallback
    case Some(o) => o.value
  }
}
