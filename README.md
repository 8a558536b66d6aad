# metin2-events, modelled in Dafny

This project models the core of metin2-events, a Discord bot and a set of webhook
jobs. They read the monthly Tigerghost event calendar from the Portuguese Metin2
forum and announce it.

- **Forum pipeline** (`src/scraper.ts`):
  - anchors on the forum index are filtered down to Tigerghost threads;
  - a thread title is resolved to a month and a year;
  - the calendar table of a thread page is extracted into a list of days, each with up to two event slots;
  - the thread for the requested month is selected;
  - the schedule is rendered as Discord text for today, this week or the whole month.
- **CEST to Lisbon rewrite** (`src/utils.ts`): the first `HH:MM - HH:MM CEST` range of an event name is shifted back by an hour.
- **Reminder entry points:**
  - the long-running bot (`src/bot.ts`), which remembers the reminders it has already attempted;
  - the stateless webhook reminder (`src/bin/reminder.ts`);
  - the hourly countdown (`src/bin/now.ts`).
- **Interaction endpoints** (`api/api.ts`, `api/events.ts`): they answer Discord's slash commands.

The network, the HTML parser, the clock and Discord itself are outside the model. A parsed page is a
sequence of tables, each given by its text and its `td` texts. The forum index is a
sequence of anchors (text, href), and URL resolution is a function parameter. The
clock is a `Clock` or `Date` value. Every post to Discord becomes the embed or payload that would
be posted, returned to the caller.

Modules, one per file: `Text` (string primitives: trim, lower-case, digits,
`padStart`, `join`), `Calendar` (JavaScript `Date` arithmetic: day numbers,
`setDate` stepping, `getDay`), `ScheduleTypes`, `TitleResolver`,
`TableExtractor`, `ScheduleAssembly`, `Formatter`, `TimeRange`, `Messages`,
`DiscordBot`, `WebhookReminder`, `Countdown`, `Interactions`, `ApiHandler`,
`EventsHandler`.

The code's form is kept:
- `parseMonthlyTable` is a method with loops.
- `formatScheduleForDiscord` is a method over an `array`, which it sorts in place by adjacent swaps.
- The bot is a class whose `lastReminderSent` set field is updated by `CheckUpcomingEvents`.
- The countdown's trigger loop is a method.

Each method is proved equal to a specification function, and the properties are proved about those functions.

## Model

| member | source | states |
|---|---|---|
| ScheduleTypes.FindDay | src/scraper.ts:189-190 | `days.find(d => d.day === n)`: none exactly when no entry has day `n`; otherwise the first entry, in order, with that day |
| Text.PadTwo | src/scraper.ts:192 | `String(n).padStart(2, '0')`: two digits for `n < 100`, all digits, and reading them back gives `n` |
| Text.NatToStringRoundTrip | src/bin/reminder.ts:64 | the decimal text of a number reads back as that number |
| Text.ContainsIffOccurs | src/scraper.ts:55-57 | `includes` holds exactly when the key occurs at some position |
| TitleResolver.Fold | src/scraper.ts:51-54 | lower-casing, NFD and stripping U+0300..U+036F leave no combining mark and no decomposable letter, and never lengthen the title |
| TitleResolver.FindMonth | src/scraper.ts:55-57 | `find` over the keys: none exactly when no key is contained; otherwise the value of the first contained key in declaration order |
| TitleResolver.FindYear | src/scraper.ts:58 | `/20\d{2}/.exec`: none exactly when no position matches; otherwise the value at the leftmost match |
| TitleResolver.ExtractMonthYearFromTitle | src/scraper.ts:47-63 | a found month lies in 0..11 and a found year in 2000..2099 |
| TitleResolver.MonthIsFirstContainedKey | src/scraper.ts:51-60 | the month is null exactly when no dictionary key occurs in the folded title; otherwise it is the value of the first key, in declaration order, that does |
| TitleResolver.YearIsFirstMatch | src/scraper.ts:58-61 | the year comes from the raw title, not the folded one: null exactly when there is no `20dd`, otherwise `parseInt` of the leftmost `20dd` |
| TitleResolver.YearValueIsParseInt | src/scraper.ts:61 | the four matched characters are digits and their decimal value is the year |
| TitleResolver.CedillaKeyNeverMatches | src/scraper.ts:21-35 | after folding, the key `março` can never be found, so March always resolves through `marco` |
| TableExtractor.FirstDayToken | src/scraper.ts:121-126 | the day read from the first `\b\d{1,2}\b` lies in 0..99 |
| TableExtractor.FirstDayTokenIsLeftmost | src/scraper.ts:121-126 | none exactly when no position holds a standalone one- or two-digit token; otherwise the value of the leftmost one |
| TableExtractor.SlotValue | src/scraper.ts:129-130 | a slot is set exactly when the trimmed text is neither empty nor `-`, and then verbatim |
| TableExtractor.RowOf | src/scraper.ts:108-132 | a triple is dropped exactly when it is a header row (day text `data` or event-1 text containing `evento 1`) or has no day token; otherwise its day is the token (below 100) and its slots are the trimmed cells |
| TableExtractor.ReadTriples | src/scraper.ts:101-106 | reading triples yields at most one row per three cells |
| TableExtractor.ReadTriplesAppend | src/scraper.ts:101-106 | cells are read as whole triples in document order: a prefix of whole triples contributes its own rows ahead of the rest |
| TableExtractor.TrailingCellsIgnored | src/scraper.ts:101-102 | a trailing group of one or two cells contributes nothing |
| TableExtractor.TableRows | src/scraper.ts:96-133 | one table yields at most a third as many entries as cells, each with a day below 100 |
| TableExtractor.ExtractDays | src/scraper.ts:90-139 | no entries exactly when no table qualifies with a non-empty result; otherwise the entries of the first such table in document order |
| TableExtractor.ReadRow | src/scraper.ts:108-132 | one pass of the inner loop produces `RowOf` of its triple |
| TableExtractor.RowsOfTable | src/scraper.ts:96-133 | the inner loop's accumulator ends as `TableRows` of the table's cells |
| TableExtractor.ParseMonthlyTable | src/scraper.ts:86-140 | the outer loop returns exactly `ExtractDays`: the rows of the first qualifying table with rows, `[]` otherwise; every day lies below 100 |
| ScheduleAssembly.FindClose | src/scraper.ts:160 | the lazy `(.*?)` stops at the first `]`, and there is no match when a line terminator or the end comes first |
| ScheduleAssembly.FirstBracketContent | src/scraper.ts:160 | `/\[(.*?)\]/.exec`: none exactly when no bracket pair exists; otherwise the text inside the leftmost pair |
| ScheduleAssembly.ServerLabel | src/scraper.ts:160 | the label is the (possibly empty) content of the first `[...]`; it falls back to `Tigerghost` only when there is no bracket pair |
| ScheduleAssembly.ParseThreadToSchedule | src/scraper.ts:157-168 | null exactly when the month or the year is missing or no table yields entries; otherwise month and year come from the title, the label is `ServerLabel` of the title, the days are exactly those the page's tables yield (`ExtractDays`), title and URL are echoed, and the schedule is valid (month 0..11, year 2000..2099, days non-empty and below 100) |
| ScheduleAssembly.TargetMonth | src/scraper.ts:249-255 | `next` targets the following month, December rolling to January of the next year; every other period targets the current month |
| ScheduleAssembly.SelectThread | src/scraper.ts:247-256 | `threads.find`: none exactly when no title resolves to the target; otherwise the first thread, in list order, that does |
| ScheduleAssembly.GetScheduleIsForTarget | src/scraper.ts:239-261 | `getSchedule` returns null when no thread resolves to the target; any schedule it returns is valid, for the target month, and is exactly `parseThreadToSchedule` of the first thread in list order that resolves to the target: its days are those that thread's page yields and its label comes from that thread's title |
| ScheduleAssembly.FindTigerghostThreads | src/scraper.ts:76-81 | exactly the anchors whose text contains `tigerghost` (any case) become threads, with the title trimmed and the link resolved; never more threads than anchors |
| ScheduleAssembly.FindTigerghostThreadsOne | src/scraper.ts:76-81 | a single anchor yields one thread (trimmed title, resolved link) when its text names `tigerghost`, and none otherwise |
| ScheduleAssembly.FindTigerghostThreadsAppend | src/scraper.ts:76-81 | the threads of two anchor lists joined are the threads of the first followed by those of the second: document order and multiplicity are kept |
| Calendar.AddDaysNumber | src/scraper.ts:198-203 | stepping a date by `k` days with `setDate` moves it `k` days on the day-number line, across month and year ends |
| Calendar.AddDaysWeekday | src/scraper.ts:198-211 | the weekday of a date moved by `k` days is the weekday moved by `k` modulo 7 |
| Calendar.DayOverflowRollsIntoNextMonth | src/scraper.ts:226 | `new Date(y, m, day)` with a day past the end of the month is that many days into the next month; past 31 December it is that many days into January of the next year |
| Formatter.TodayText | src/scraper.ts:189-196 | the `today` view is exactly `❌ Não há eventos hoje.` when there is no entry for today; otherwise it is the four lines of `TodayLines` for today's entry joined by newlines |
| Formatter.TodayLines | src/scraper.ts:187-196 | the `today` view has four lines: the bold title, the `**Hoje, DD/M**` heading, the first slot line and the second slot line |
| Formatter.TodayHeadingReadBack | src/scraper.ts:192-194 | the heading reads `**Hoje, ` then the day as two digits, a slash, the 1-based month and a closing `**`; the digits read back as the day and the month plus one |
| Formatter.WeekBlock | src/scraper.ts:204-218 | a week day has three lines when the schedule has an entry with its day number, two otherwise |
| Formatter.WeekLines | src/scraper.ts:201-219 | `n` week days give between `2n` and `3n` lines |
| Formatter.WeekRunsMondayToSunday | src/scraper.ts:198-211 | day `i` of the week view falls on weekday `(i + 1) mod 7`: the seven days run Monday to Sunday |
| Formatter.WeekContainsTodayUnlessSunday | src/scraper.ts:198-200 | on a Sunday the week view starts the next day; on any other day it holds today at position `getDay() - 1` |
| Formatter.MonthLines | src/scraper.ts:225-233 | the month view has three lines per entry |
| Formatter.MonthLinesAt | src/scraper.ts:225-233 | entry `k` owns lines `3k`..`3k+2`: its heading and its two slot lines |
| Formatter.MonthLinesListEveryEntry | src/scraper.ts:225-233 | every entry is listed in order, three lines each |
| Formatter.InsertByDayPermutes | src/scraper.ts:225 | an insertion step adds the entry and loses none |
| Formatter.SortedDaysPermutes | src/scraper.ts:225 | the sort loses and invents no entry: the result is a permutation of the input |
| Formatter.SortedDaysIsSorted | src/scraper.ts:225 | the sorted entries are in ascending day order |
| Formatter.InsertKeepsSorted | src/scraper.ts:225 | inserting into a sorted sequence keeps it sorted |
| Formatter.InsertBetween | src/scraper.ts:225 | placing an entry after every entry with a day not larger than its own and before every entry with a larger day is the insertion step |
| Formatter.InsertLast | src/scraper.ts:225 | one pass of swaps inserts the next entry into the sorted prefix in place and leaves the rest of the array alone |
| Formatter.SortByDay | src/scraper.ts:225 | `days.sort` in place: the array ends as the sorted sequence of its old contents |
| Formatter.WeekView | src/scraper.ts:187-219 | the week loop produces the title and the seven day blocks, 15 to 22 lines in all |
| Formatter.MonthView | src/scraper.ts:220-233 | the month loop produces the title and three lines per array entry, in array order |
| Formatter.FormatScheduleForDiscord | src/scraper.ts:171-237 | the text is the rendering of the schedule's days as they were before the call; the `today` and `week` views leave the days unchanged, and every other period leaves them sorted by day |
| Formatter.MonthViewOrdered | src/scraper.ts:220-233 | the month view lists a permutation of the entries sorted by day, three lines each |
| TimeRange.MatchAt | src/utils.ts:44-45 | a match at `p` starts at `p`, spans at least 15 characters, and captures four two-digit groups |
| TimeRange.MatchAtShape | src/utils.ts:44-46 | a match is word-bounded on both sides, its first two groups are the first clock's hour and minutes, and it ends with `CEST` |
| TimeRange.FirstHit | src/utils.ts:44-45 | the leftmost position where the test holds, none exactly when it holds nowhere |
| TimeRange.FirstMatch | src/utils.ts:44-45 | the match found is a real match at or after the starting position |
| TimeRange.FirstMatchIsLeftmost | src/utils.ts:44-45 | no match is found exactly when no position matches; otherwise no earlier position matches |
| TimeRange.ShiftHour | src/utils.ts:54-55 | the shifted hour always lies in 0..23 |
| TimeRange.ShiftHourUndone | src/utils.ts:54-55 | `(h - 1 + 24) % 24` on a valid hour is one hour back, `00` becoming `23`, and is undone by going one hour forward |
| TimeRange.OutOfRangeHourWraps | src/utils.ts:54-55 | hours the clock cannot show also wrap modulo 24, e.g. `25` becomes `00` |
| TimeRange.Clock | src/utils.ts:58-59 | the hour is padded to two digits that read back as the hour, followed by a colon and the minutes as captured |
| TimeRange.Replacement | src/utils.ts:61 | the replacement is exactly `HH:MM - HH:MM` (13 characters, `CEST` dropped, blanks normalised) with both hours shifted and both minutes copied |
| TimeRange.UnchangedIffNoRange | src/utils.ts:43-64 | a name is returned unchanged exactly when it holds no range, and one with a range always comes back shorter |
| TimeRange.OnlyFirstRangeRewritten | src/utils.ts:44-61 | only the leftmost range is rewritten: the text before and after it, later ranges included, is kept and the first minutes are copied |
| TimeRange.WholeRangeRewritten | src/utils.ts:43-64 | a name that is one `HH:MM - HH:MM CEST` range, for any four two-digit fields, becomes the 13-character `HH:MM - HH:MM` with both hours one earlier modulo 24 and both minutes unchanged |
| TimeRange.MidnightRange | src/utils.ts:43-64 | a worked instance of the rule above at the midnight boundary: `00:30 - 01:15 CEST` becomes `23:30 - 00:15` |
| Messages.WindowsDisjoint | src/bot.ts:209-230 | the Event 1 window is minutes 885..899, the Event 2 window 1125..1139, and no minute lies in both |
| Messages.DateText | src/bin/reminder.ts:120 | the date text starts with the day, followed by a slash |
| Messages.DateTextReadBack | src/bin/reminder.ts:120 | the date text is three digit runs separated by two slashes, reading back as the day, the 1-based month and the year |
| Messages.DailyReminder | src/bin/reminder.ts:46-87 | no embed exactly when there is no schedule or no entry for today; otherwise the dated description and one field per slot, an absent slot reading `No event` |
| Messages.EventReminder | src/bot.ts:259-273 | the "starting soon" embed carries the event name and the date as its two fields, and its description names the slot number first and the start time last |
| DiscordBot.KeysDistinct | src/bot.ts:213-232 | the Event 1 and Event 2 keys of a date differ |
| DiscordBot.SendEventReminder | src/bot.ts:239-280 | nothing when today has no entry or the selected slot (event1 for 1, event2 otherwise) is absent or empty; otherwise the embed names that slot and the date |
| DiscordBot.Metin2Bot.constructor | src/bot.ts:27 | the bot starts with no reminder recorded |
| DiscordBot.Metin2Bot.CheckUpcomingEvents | src/bot.ts:199-237 | a tick records each key whose branch fires (whether or not anything was posted) and posts what `sendEventReminder` builds |
| DiscordBot.TickGrowsByAtMostOne | src/bot.ts:199-237 | `lastReminderSent` only grows, by at most one key per tick; a tick posts at most one reminder, and without a schedule nothing changes |
| DiscordBot.NewKeysAreFromTheWindow | src/bot.ts:213-232 | a key is recorded only for the tick's date and only while its slot's window holds the minute |
| DiscordBot.AttemptedOncePerDate | src/bot.ts:216-232 | once a slot has been attempted, no later tick on the same date attempts it again |
| DiscordBot.TickIdempotent | src/bot.ts:216-232 | repeating a tick at the same minute changes nothing and posts nothing |
| WebhookReminder.CheckUpcomingEvents | src/bin/reminder.ts:89-158 | at most one reminder; one exactly when there is a schedule with an entry for today and the minute lies in a window; it names that window's slot, `Unknown` when absent, carries the date `<day>/<month+1>/<year>` as its second field, and announces Event 1 at 15:00 before minute 900 and Event 2 at 19:00 after |
| WebhookReminder.RunPostsOneKind | src/bin/reminder.ts:160-184 | a run posts at most one embed, the daily reminder exactly at 08:00 and a "starting soon" reminder otherwise, never both |
| WebhookReminder.BotTickMatchesWebhookCheck | src/bin/reminder.ts:89-158 | with no key yet recorded and both slots named, a bot tick posts exactly what a webhook check posts |
| Countdown.FindEntry | src/bin/now.ts:16 | none exactly when no entry has today's day; otherwise the first one that does |
| Countdown.Triggers | src/bin/now.ts:25-38 | two triggers, each firing the hour before its slot starts |
| Countdown.MinutesInTriggerHour | src/bin/now.ts:42-46 | within the trigger hour the countdown is the whole minutes left, 0..60: `60 - minute` when seconds and milliseconds are zero, `59 - minute` otherwise |
| Countdown.CountdownPayload | src/bin/now.ts:48-69 | the payload mentions the events role; its embed begins with the slot label and name and ends with ` <minutes> minutos`; the `Evento Adicional` field is attached exactly when `extra` is truthy and then contains the extra text |
| Countdown.CountdownsOf | src/bin/now.ts:40-70 | the loop posts one payload per trigger whose hour is the current hour |
| Countdown.SendDailyReminder | src/bin/now.ts:6-78 | the run's loop posts exactly the countdowns of today's entry |
| Countdown.TableRun | src/bin/now.ts:25-46 | at 14:xx the Evento 1 countdown, at 18:xx the Evento 2 countdown, nothing in any other hour |
| Countdown.OneCountdownPerRun | src/bin/now.ts:6-64 | a run posts at most one countdown; one exactly when there is a schedule, an entry for today, and the hour is 14 or 18; it names the slot starting next |
| Countdown.CountdownSaysMinutesLeft | src/bin/now.ts:42-51 | when a run posts a countdown, its embed ends with the minutes left to the event: `60 - minute` at exactly hh:00:00.000, `59 - minute` otherwise |
| Interactions.FindOption | api/api.ts:101-104 | `options.find`: none exactly when no option has the name; otherwise the first that does |
| Interactions.Period | api/api.ts:101-104 | the value of the first `period` option, or the endpoint's default when there is none |
| Interactions.NothingScheduled | api/api.ts:112-119 | the reply is an ephemeral (flags 64) channel message (type 4, status 200) with no embeds whose text contains the schedule title |
| ApiHandler.PeriodToTitle | api/api.ts:173-184 | `next`, `today` and `month` have their own titles, and every other period, `week` included, reads `Esta Semana` |
| ApiHandler.GetEmbeds | api/api.ts:186-213 | one green embed titled with the prefix followed by the period's title, and the update time in the footer |
| ApiHandler.HandleDecisionTable | api/api.ts:63-171 | 405 for a method other than POST, 401 for a bad signature, a PONG for a PING, a channel message for every slash command (`Hey!` for `ping`, `❌ Comando inválido` for an unknown command), and 400 for anything else |
| ApiHandler.CacheTakesPriority | api/api.ts:106-127 | with a cached period file the forum is not consulted: an `unavailable` first embed gives the ephemeral "nothing scheduled" reply, otherwise the cached embeds are returned as stored |
| ApiHandler.ScrapeWhenNotCached | api/api.ts:129-148 | without a cache the reply is "nothing scheduled" exactly when no schedule can be built; otherwise one embed titled for the period |
| ApiHandler.MissingPeriodMeansWeek | api/api.ts:101-104 | a command without a `period` option is answered as for `week` |
| EventsHandler.PeriodToTitle | api/events.ts:133-144 | `next`, `today` and `week` have their own titles, and every other period, `month` included, reads `Este Mês` |
| EventsHandler.GetEmbeds | api/events.ts:146-158 | one green embed titled for the period whose description is the schedule formatted for that period |
| EventsHandler.HandleDecisionTable | api/events.ts:59-131 | 405, 401, PONG, a channel message for every slash command (`❌ Comando inválido` for anything but `events`), and 400 otherwise |
| EventsHandler.EventsCommandReply | api/events.ts:95-119 | "nothing scheduled" exactly when no schedule can be built; otherwise one embed for the target month, and for `today` its text says there are no events exactly when today has no entry |
| EventsHandler.MissingPeriodMeansMonth | api/events.ts:96-99 | a command without a `period` option is answered as for `month` |
| EventsHandler.TitlesAgreeOnKnownPeriods | api/events.ts:133-144 | the two endpoints title a period alike exactly for `next`, `today`, `month` and `week`, and their defaults read differently |

## Left out

- Network and HTML parsing: `fetchHtml`, JSDOM and the CSS selectors are not modelled. A page is given as its tables (text, `td` texts) and the forum index as its anchors (text, href). `new URL` resolution is a function parameter.
- Unicode: `toLowerCase` is modelled on the upper-case letters of ASCII and Latin-1 only. NFD decomposition is modelled as a fixed fold table for the lower-case Latin-1 letters; characters outside it are kept as they are. `\s` and `trim` use the ECMAScript WhiteSpace and LineTerminator characters. `\b` and `\w` are ASCII, as JavaScript defines them.
- Clock: `portugalNow`, `new Date()` and the Lisbon time zone (daylight saving included) are not modelled. The clock reading is an input (`Clock`, or a `Date` in the renderer). The weekday is computed from the proleptic Gregorian calendar. The month view builds its dates as `new Date(year, month, day)` does, reading a year of 0..99 as 1900..1999 (`Calendar.ConstructorYear`).
- Discord and delivery:
  - the Discord client, cron scheduling, login, shutdown and channel fetching of `src/bot.ts`;
  - the webhook POSTs;
  - `fetchPeriodFile`;
  - `verifyKey` and request body buffering (its verdict is a field of the request);
  - JSON parsing;
  - embed timestamps;
  - logging and timing.

  These are I/O, so their results are inputs and a run returns what it would post.
- `ApiHandler.GetEmbeds`: the locale-formatted update time is an input string. `api/api.ts` reads `.description` and `.hasAdditionalWithNoTime` from the string `formatScheduleForDiscord` returns. Both are undefined, so the embed has no description and the footer has no all-day note.
- The schedule source of `src/bot.ts` (`getCurrentMonthSchedule`) is not exported by `src/scraper.ts`. The bot's reminders therefore take the schedule as an input.
- The one-argument call of `formatScheduleForDiscord` in `src/bot.ts` and the bot's own interaction handlers (`handleInteraction`, `handleEventsCommand`) are not part of this model. They are Discord plumbing around the same renderer.
- Entry-point glue, file I/O and configuration are not part of this model: `src/api/events.ts`, `src/bin/scraper.ts`, `src/bin/index.ts`, `src/bin/register.ts`, `src/bin/mothly.ts`, `src/bin/refresh.ts`, `src/config.ts`, `test-simple.js`.
- The optional `extra` label exists only in the countdown's own entry type (`Countdown.CountdownDay`). The scraper's `DailyEvents` has no such field, and nothing in `src/scraper.ts` merges a second forum.
- Exceptions thrown by I/O, and the `try`/`catch` blocks that swallow them, are not modelled. In the bot this is why a key is recorded even when nothing was posted, and the model records it unconditionally.
- `Formatter.SortByDay`: `Array.prototype.sort` is specified as a stable sort by day, and stability is the order `SortedDays` defines. The exact comparison sequence of the engine's sort is not modelled; only its result is.
- `Formatter.WeekBlock`: the week view looks entries up by day number only, as the code does. A day of the following or previous month with the same number therefore shows this month's entry. The model keeps this behaviour and states no property about it.
