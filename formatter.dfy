/** `formatScheduleForDiscord` of `src/scraper.ts`: renders a schedule as lines
    joined by newlines, for one of the periods `today`, `week` or anything else
    (month). The clock's reading `now` is an input. The schedule's scalar fields
    are passed as they are; its `days` array is an `array`, because the month
    view sorts it in place. */
module Formatter {
  import opened Text
  import opened ScheduleTypes
  import opened Calendar

  /** Weekday names indexed by `getDay()` (0 = Sunday). */
  const Weekdays: seq<string> := ["Domingo", "Segunda-feira", "Terça-feira", "Quarta-feira",
                                  "Quinta-feira", "Sexta-feira", "Sábado"]
  const NoEventsToday: string := "❌ Não há eventos hoje."
  const NoEventLine: string := "• Nenhum evento."
  const TodayMark: string := " 🎯"

  function TitleLine(title: string): string {
    "**" + title + "**"
  }

  /** `slot ?? '-'` */
  function OrDash(slot: Option<string>): string {
    if slot.Some? then slot.value else "-"
  }

  function Event1Line(e: DailyEvents): string {
    "• **Evento 1**: " + OrDash(e.event1)
  }

  function Event2Line(e: DailyEvents): string {
    "• **Evento 2**: " + OrDash(e.event2)
  }

  function TodayHeading(e: DailyEvents, month: nat): string {
    "**Hoje, " + PadTwo(e.day) + "/" + NatToString(month + 1) + "**"
  }

  /** The heading of one day in the week and month views. */
  function DayHeading(weekday: nat, day: nat, monthNumber: nat, marked: bool): string
    requires weekday < 7
  {
    "**" + Weekdays[weekday] + ", " + PadTwo(day) + "/" + NatToString(monthNumber)
    + (if marked then TodayMark else "") + "**"
  }

  /** The heading of the `today` view reads back as the day, padded to two digits, and
      the 1-based month: `**Hoje, DD/M**`. */
  lemma TodayHeadingReadBack(e: DailyEvents, month: nat)
    requires e.day < 100
    ensures var h := TodayHeading(e, month);
            StartsWith(h, "**Hoje, ") && EndsWith(h, "**") && 13 < |h| && h[10] == '/'
            && AllDigits(h[8..10]) && DecimalValue(h[8..10]) == e.day
            && AllDigits(h[11..|h| - 2]) && DecimalValue(h[11..|h| - 2]) == month + 1
  {
    var h := TodayHeading(e, month);
    var d, m := PadTwo(e.day), NatToString(month + 1);
    assert h == "**Hoje, " + d + "/" + m + "**";
    assert h[8..10] == d && h[11..|h| - 2] == m;
    NatToStringRoundTrip(month + 1);
  }

  /** The four lines of the `today` view, in order: the title, the heading, the Event 1
      line and the Event 2 line. */
  function TodayLines(title: string, month: nat, e: DailyEvents): (r: seq<string>)
    ensures |r| == 4 && r[0] == TitleLine(title) && r[1] == TodayHeading(e, month)
            && r[2] == Event1Line(e) && r[3] == Event2Line(e)
  {
    [TitleLine(title), TodayHeading(e, month), Event1Line(e), Event2Line(e)]
  }

  /** The `today` view: the fallback message alone when no entry has today's day
      number, otherwise the title, the day heading and the two slot lines. */
  function TodayText(title: string, month: nat, days: seq<DailyEvents>, today: nat): (r: string)
    ensures r == NoEventsToday <==> FindDay(days, today).None?
    ensures FindDay(days, today).Some? ==> r == Join(TodayLines(title, month, FindDay(days, today).value), "\n")
    ensures FindDay(days, today).Some? ==>
              StartsWith(r, TitleLine(title)) && Contains(r, Event1Line(FindDay(days, today).value))
              && Contains(r, Event2Line(FindDay(days, today).value))
  {
    match FindDay(days, today)
    case None => NoEventsToday
    case Some(e) =>
      var r := Join(TodayLines(title, month, e), "\n");
      JoinOfFour(TitleLine(title), TodayHeading(e, month), Event1Line(e), Event2Line(e));
      assert r[0] == TitleLine(title)[0] == '*';
      r
  }

  /** Four joined lines start with the first and contain the third and the fourth. */
  lemma JoinOfFour(l0: string, l1: string, l2: string, l3: string)
    ensures StartsWith(Join([l0, l1, l2, l3], "\n"), l0)
    ensures Contains(Join([l0, l1, l2, l3], "\n"), l2) && Contains(Join([l0, l1, l2, l3], "\n"), l3)
  {
    var lines := [l0, l1, l2, l3];
    var r := Join(lines, "\n");
    JoinStartsWithFirst(lines, "\n");
    JoinCons(l2, [l3], "\n");
    JoinCons(l1, [l2, l3], "\n");
    JoinCons(l0, [l1, l2, l3], "\n");
    assert lines == [l0] + [l1, l2, l3] && [l1, l2, l3] == [l1] + [l2, l3] && [l2, l3] == [l2] + [l3];
    var at := |l0| + 1 + |l1| + 1;
    assert r == (l0 + "\n" + l1 + "\n") + l2 + "\n" + l3;
    assert OccursAt(r, l2, at);
    assert OccursAt(r, l3, at + |l2| + 1);
    ContainsIffOccurs(r, l2);
    ContainsIffOccurs(r, l3);
  }

  /** The Monday the week view starts from: `now - getDay() + 1`, so on a Sunday it is
      the following day. */
  function WeekStart(now: Date): (r: Date)
    requires ValidDate(now)
    ensures ValidDate(r)
  {
    AddDays(now, 1 - WeekdayOf(now.year, now.month, now.day))
  }

  /** The lines of one day `d` of the week view: the heading, then the two slots of the
      entry with `d`'s day number, or the no-event line. */
  function WeekBlock(days: seq<DailyEvents>, month: nat, now: Date, d: Date): (r: seq<string>)
    requires ValidDate(d)
    ensures |r| == 2 || |r| == 3
    ensures |r| == 3 <==> FindDay(days, d.day).Some?
  {
    var heading := DayHeading(WeekdayOf(d.year, d.month, d.day), d.day, d.month + 1,
                              now.day == d.day && now.month == month);
    match FindDay(days, d.day)
    case Some(e) => [heading, Event1Line(e), Event2Line(e)]
    case None => [heading, NoEventLine]
  }

  /** The first `n` days of the week view. */
  function WeekLines(days: seq<DailyEvents>, month: nat, now: Date, n: nat): (r: seq<string>)
    requires ValidDate(now)
    ensures 2 * n <= |r| <= 3 * n
  {
    if n == 0 then []
    else WeekLines(days, month, now, n - 1) + WeekBlock(days, month, now, AddDays(WeekStart(now), n - 1))
  }

  /** The seven days of the week view run Monday to Sunday. */
  lemma WeekRunsMondayToSunday(now: Date, i: nat)
    requires ValidDate(now) && i < 7
    ensures var d := AddDays(WeekStart(now), i); WeekdayOf(d.year, d.month, d.day) == (i + 1) % 7
  {
    var w: int := WeekdayOf(now.year, now.month, now.day);
    AddDaysWeekday(now, 1 - w);
    AddDaysWeekday(WeekStart(now), i);
    ShiftModSeven(1 - w + w, i);
  }

  /** On Sunday the week view shows the week after today; on any other day the week
      holding today, which is its day number `getDay() - 1`. */
  lemma WeekContainsTodayUnlessSunday(now: Date)
    requires ValidDate(now)
    ensures var w := WeekdayOf(now.year, now.month, now.day);
            (w == 0 ==> DateNumber(WeekStart(now)) == DateNumber(now) + 1)
            && (w != 0 ==> DateNumber(AddDays(WeekStart(now), w - 1)) == DateNumber(now))
  {
    var w: int := WeekdayOf(now.year, now.month, now.day);
    AddDaysNumber(now, 1 - w);
    if w != 0 {
      AddDaysNumber(WeekStart(now), w - 1);
    }
  }

  /** The three lines of one entry in the month view. */
  function MonthBlock(e: DailyEvents, month: nat, year: nat, now: Date): seq<string>
    requires month < 12
  {
    var isCurrentMonth := now.month == month && now.year == year;
    [DayHeading(WeekdayOf(ConstructorYear(year), month, e.day), e.day, month + 1, isCurrentMonth && e.day == now.day),
     Event1Line(e), Event2Line(e)]
  }

  /** The month view's lines for `es`, in the order given: three lines per entry. */
  function MonthLines(es: seq<DailyEvents>, month: nat, year: nat, now: Date): (r: seq<string>)
    requires month < 12
    ensures |r| == 3 * |es|
  {
    if es == [] then []
    else MonthLines(es[..|es| - 1], month, year, now) + MonthBlock(es[|es| - 1], month, year, now)
  }

  /** Entry `k` of `es` owns lines `3k`, `3k + 1` and `3k + 2` of the month view: its
      heading and its two slot lines. */
  lemma {:induction false} MonthLinesAt(es: seq<DailyEvents>, k: nat, month: nat, year: nat, now: Date)
    requires month < 12 && k < |es|
    ensures MonthLines(es, month, year, now)[3 * k] == MonthBlock(es[k], month, year, now)[0]
    ensures MonthLines(es, month, year, now)[3 * k + 1] == Event1Line(es[k])
    ensures MonthLines(es, month, year, now)[3 * k + 2] == Event2Line(es[k])
    decreases |es|
  {
    var front := es[..|es| - 1];
    var lines := MonthLines(front, month, year, now);
    var block := MonthBlock(es[|es| - 1], month, year, now);
    var r := MonthLines(es, month, year, now);
    assert r == lines + block;
    if k < |front| {
      MonthLinesAt(front, k, month, year, now);
      assert es[k] == front[k];
      assert r[3 * k] == lines[3 * k] && r[3 * k + 1] == lines[3 * k + 1] && r[3 * k + 2] == lines[3 * k + 2];
    } else {
      assert r[3 * k] == block[0] && r[3 * k + 1] == block[1] && r[3 * k + 2] == block[2];
    }
  }

  /** Every entry of `es` is listed, in order, three lines each. */
  lemma MonthLinesListEveryEntry(es: seq<DailyEvents>, month: nat, year: nat, now: Date)
    requires month < 12
    ensures forall k :: 0 <= k < |es| ==>
              MonthLines(es, month, year, now)[3 * k] == MonthBlock(es[k], month, year, now)[0]
              && MonthLines(es, month, year, now)[3 * k + 1] == Event1Line(es[k])
              && MonthLines(es, month, year, now)[3 * k + 2] == Event2Line(es[k])
  {
    forall k | 0 <= k < |es|
      ensures MonthLines(es, month, year, now)[3 * k] == MonthBlock(es[k], month, year, now)[0]
              && MonthLines(es, month, year, now)[3 * k + 1] == Event1Line(es[k])
              && MonthLines(es, month, year, now)[3 * k + 2] == Event2Line(es[k])
    {
      MonthLinesAt(es, k, month, year, now);
    }
  }

  /** One more entry adds its three lines at the end. */
  lemma MonthLinesPrefix(es: seq<DailyEvents>, k: nat, month: nat, year: nat, now: Date)
    requires month < 12 && k < |es|
    ensures MonthLines(es[..k + 1], month, year, now)
            == MonthLines(es[..k], month, year, now) + MonthBlock(es[k], month, year, now)
  {
    var t := es[..k + 1];
    assert t[..|t| - 1] == es[..k] && t[|t| - 1] == es[k];
  }

  predicate SortedByDay(s: seq<DailyEvents>) {
    forall p, q :: 0 <= p < q < |s| ==> s[p].day <= s[q].day
  }

  /** `x` placed after the last entry of `s` whose day is not larger than its own: the
      step of a stable insertion sort. */
  function InsertByDay(s: seq<DailyEvents>, x: DailyEvents): (r: seq<DailyEvents>)
    ensures |r| == |s| + 1
  {
    if s == [] || s[|s| - 1].day <= x.day then s + [x]
    else InsertByDay(s[..|s| - 1], x) + [s[|s| - 1]]
  }

  /** Inserting adds `x` and loses nothing. */
  lemma {:induction false} InsertByDayPermutes(s: seq<DailyEvents>, x: DailyEvents)
    ensures multiset(InsertByDay(s, x)) == multiset(s) + multiset{x}
    decreases |s|
  {
    if !(s == [] || s[|s| - 1].day <= x.day) {
      var front := s[..|s| - 1];
      InsertByDayPermutes(front, x);
      assert s == front + [s[|s| - 1]];
    }
  }

  /** What `days.sort((a, b) => a.day - b.day)` leaves: the entries ordered by day, entries
      with the same day in their original order (the sort is stable). */
  function SortedDays(s: seq<DailyEvents>): (r: seq<DailyEvents>)
    ensures |r| == |s|
  {
    if s == [] then []
    else InsertByDay(SortedDays(s[..|s| - 1]), s[|s| - 1])
  }

  /** The sort loses and invents no entry. */
  lemma {:induction false} SortedDaysPermutes(s: seq<DailyEvents>)
    ensures multiset(SortedDays(s)) == multiset(s)
    decreases |s|
  {
    if s != [] {
      var front := s[..|s| - 1];
      SortedDaysPermutes(front);
      InsertByDayPermutes(SortedDays(front), s[|s| - 1]);
      assert s == front + [s[|s| - 1]];
    }
  }

  /** Inserting into a sorted sequence keeps it sorted. */
  lemma {:induction false} InsertKeepsSorted(s: seq<DailyEvents>, x: DailyEvents)
    requires SortedByDay(s)
    ensures SortedByDay(InsertByDay(s, x))
    ensures forall k :: 0 <= k < |InsertByDay(s, x)| ==>
              InsertByDay(s, x)[k].day <= (if s == [] || s[|s| - 1].day <= x.day then x.day else s[|s| - 1].day)
    decreases |s|
  {
    if s == [] || s[|s| - 1].day <= x.day {
    } else {
      var front := s[..|s| - 1];
      assert SortedByDay(front);
      InsertKeepsSorted(front, x);
      var r := InsertByDay(front, x);
      forall k | 0 <= k < |r| ensures r[k].day <= s[|s| - 1].day {
        if front == [] || front[|front| - 1].day <= x.day {
        } else {
          assert front[|front| - 1] == s[|s| - 2];
        }
      }
    }
  }

  /** The sorted result is ordered by day. */
  lemma {:induction false} SortedDaysIsSorted(s: seq<DailyEvents>)
    ensures SortedByDay(SortedDays(s))
    decreases |s|
  {
    if s != [] {
      SortedDaysIsSorted(s[..|s| - 1]);
      InsertKeepsSorted(SortedDays(s[..|s| - 1]), s[|s| - 1]);
    }
  }

  /** Inserting `x` between `p`, whose last day is not larger, and `q`, whose days are all
      larger, is what `InsertByDay` does. */
  lemma {:induction false} InsertBetween(p: seq<DailyEvents>, q: seq<DailyEvents>, x: DailyEvents)
    requires p == [] || p[|p| - 1].day <= x.day
    requires forall k :: 0 <= k < |q| ==> x.day < q[k].day
    ensures InsertByDay(p + q, x) == p + [x] + q
    decreases |q|
  {
    if q == [] {
      assert p + q == p;
    } else {
      var q', last := q[..|q| - 1], q[|q| - 1];
      assert q == q' + [last];
      InsertLastLarger(p + q', last, x);
      assert p + q == (p + q') + [last];
      InsertBetween(p, q', x);
      assert p + [x] + q == (p + [x] + q') + [last];
    }
  }

  /** An entry with a larger day than `x` at the end stays at the end. */
  lemma InsertLastLarger(s: seq<DailyEvents>, last: DailyEvents, x: DailyEvents)
    requires x.day < last.day
    ensures InsertByDay(s + [last], x) == InsertByDay(s, x) + [last]
  {
    var t := s + [last];
    assert t[|t| - 1] == last && t[..|t| - 1] == s;
  }

  /** `days.sort((a, b) => a.day - b.day)` in place: an insertion sort by adjacent swaps,
      which moves an entry only past entries with a larger day. */
  method SortByDay(a: array<DailyEvents>)
    modifies a
    ensures a[..] == SortedDays(old(a[..]))
  {
    ghost var input := a[..];
    var i := 0;
    while i < a.Length
      invariant 0 <= i <= a.Length
      invariant a[..i] == SortedDays(input[..i])
      invariant a[i..] == input[i..]
    {
      ghost var before := a[..];
      InsertLast(a, i);
      SortStep(input, before, a[..], i);
      i := i + 1;
    }
    assert input[..a.Length] == input;
  }

  /** After pass `i` of the outer loop the first `i + 1` entries are the sorted first
      `i + 1` entries of the input and the rest is untouched. */
  lemma SortStep(input: seq<DailyEvents>, before: seq<DailyEvents>, after: seq<DailyEvents>, i: nat)
    requires i < |input| == |before| == |after|
    requires before[..i] == SortedDays(input[..i]) && before[i..] == input[i..]
    requires after[..i + 1] == InsertByDay(before[..i], before[i]) && after[i + 1..] == before[i + 1..]
    ensures after[..i + 1] == SortedDays(input[..i + 1]) && after[i + 1..] == input[i + 1..]
  {
    assert before[i] == before[i..][0] == input[i..][0] == input[i];
    var s := input[..i + 1];
    assert s[..|s| - 1] == input[..i] && s[|s| - 1] == input[i];
    assert before[i + 1..] == before[i..][1..];
  }

  /** One pass of the outer loop: `a[i]` is swapped down past the larger entries before
      it, which inserts it into the sorted prefix `a[..i]`. */
  method InsertLast(a: array<DailyEvents>, i: nat)
    requires i < a.Length
    modifies a
    ensures a[..i + 1] == InsertByDay(old(a[..i]), old(a[i]))
    ensures a[i + 1..] == old(a[i + 1..])
  {
    ghost var prefix := a[..i];
    ghost var x := a[i];
    assert a[..i + 1] == prefix[..i] + [x] + prefix[i..];
    var j := i;
    while j > 0 && a[j - 1].day > a[j].day
      invariant 0 <= j <= i
      invariant a[..i + 1] == prefix[..j] + [x] + prefix[j..]
      invariant forall q :: j <= q < i ==> x.day < prefix[q].day
      invariant a[i + 1..] == old(a[i + 1..])
    {
      ghost var before := a[..];
      SlotsAt(before, prefix, x, i, j);
      a[j - 1], a[j] := a[j], a[j - 1];
      SwapDown(before, a[..], prefix, x, i, j);
      j := j - 1;
    }
    SlotsAt(a[..], prefix, x, i, j);
    assert prefix == prefix[..j] + prefix[j..];
    InsertBetween(prefix[..j], prefix[j..], x);
  }

  /** Where `x` sits at `j` among the first `i + 1` entries, the entry before it is the
      prefix's entry `j - 1`. */
  lemma SlotsAt(before: seq<DailyEvents>, prefix: seq<DailyEvents>, x: DailyEvents, i: nat, j: nat)
    requires j <= i == |prefix| && i < |before|
    requires before[..i + 1] == prefix[..j] + [x] + prefix[j..]
    ensures before[j] == x
    ensures j > 0 ==> before[j - 1] == prefix[j - 1]
  {
    assert before[j] == before[..i + 1][j];
    if j > 0 {
      assert before[j - 1] == before[..i + 1][j - 1];
    }
  }

  /** One swap of `InsertLast`: `x` moves from `j` to `j - 1` and the prefix entry before
      it moves up; nothing past `i` changes. */
  lemma SwapDown(before: seq<DailyEvents>, after: seq<DailyEvents>, prefix: seq<DailyEvents>,
                 x: DailyEvents, i: nat, j: nat)
    requires 0 < j <= i == |prefix| && i < |before|
    requires before[..i + 1] == prefix[..j] + [x] + prefix[j..]
    requires after == before[j - 1 := before[j]][j := before[j - 1]]
    ensures after[..i + 1] == prefix[..j - 1] + [x] + prefix[j - 1..]
    ensures after[i + 1..] == before[i + 1..]
  {
    SlotsAt(before, prefix, x, i, j);
    assert prefix[..j] == prefix[..j - 1] + [prefix[j - 1]];
    assert prefix[j - 1..] == [prefix[j - 1]] + prefix[j..];
    ghost var want := prefix[..j - 1] + [x] + prefix[j - 1..];
    forall k | 0 <= k < i + 1
      ensures after[k] == want[k]
    {
      assert before[k] == before[..i + 1][k];
    }
    assert after[..i + 1] == want;
  }

  /** One pass of the week loop: the heading of day `d`, then the slots of the entry
      with `d`'s day number, or the no-event line. */
  method WeekDayLines(days: seq<DailyEvents>, month: nat, now: Date, d: Date) returns (block: seq<string>)
    requires ValidDate(d)
    ensures block == WeekBlock(days, month, now, d)
  {
    var dayEntry := FindDay(days, d.day);
    var marked := now.day == d.day && now.month == month;
    block := [DayHeading(WeekdayOf(d.year, d.month, d.day), d.day, d.month + 1, marked)];
    if dayEntry.Some? {
      block := block + [Event1Line(dayEntry.value)];
      block := block + [Event2Line(dayEntry.value)];
    } else {
      block := block + [NoEventLine];
    }
  }

  /** The week branch: seven days from `WeekStart(now)`. */
  method WeekView(title: string, month: nat, days: seq<DailyEvents>, now: Date) returns (lines: seq<string>)
    requires ValidDate(now)
    ensures lines == [TitleLine(title)] + WeekLines(days, month, now, 7)
    ensures 15 <= |lines| <= 22
  {
    lines := [TitleLine(title)];
    var start := WeekStart(now);
    for i := 0 to 7
      invariant lines == [TitleLine(title)] + WeekLines(days, month, now, i)
    {
      var block := WeekDayLines(days, month, now, AddDays(start, i));
      WeekLinesStep(lines, block, title, days, month, now, i);
      lines := lines + block;
    }
  }

  /** The block of the next day extends the week view by that day. */
  lemma WeekLinesStep(lines: seq<string>, block: seq<string>, title: string, days: seq<DailyEvents>,
                      month: nat, now: Date, i: nat)
    requires ValidDate(now)
    requires lines == [TitleLine(title)] + WeekLines(days, month, now, i)
    requires block == WeekBlock(days, month, now, AddDays(WeekStart(now), i))
    ensures lines + block == [TitleLine(title)] + WeekLines(days, month, now, i + 1)
  {
  }

  /** One pass of the month loop: the entry's heading, marked when it is today, and its
      two slot lines. */
  method MonthDayLines(e: DailyEvents, month: nat, year: nat, now: Date) returns (block: seq<string>)
    requires month < 12
    ensures block == MonthBlock(e, month, year, now)
  {
    var isCurrentMonth := now.month == month && now.year == year;
    block := [DayHeading(WeekdayOf(ConstructorYear(year), month, e.day), e.day, month + 1, isCurrentMonth && e.day == now.day)];
    block := block + [Event1Line(e)];
    block := block + [Event2Line(e)];
  }

  /** The month branch over the (already sorted) entries, in array order. */
  method MonthView(title: string, month: nat, year: nat, days: array<DailyEvents>, now: Date)
    returns (lines: seq<string>)
    requires month < 12
    ensures lines == [TitleLine(title)] + MonthLines(days[..], month, year, now)
    ensures |lines| == 1 + 3 * days.Length
  {
    ghost var entries := days[..];
    lines := [TitleLine(title)];
    for k := 0 to days.Length
      invariant lines == [TitleLine(title)] + MonthLines(entries[..k], month, year, now)
    {
      var block := MonthDayLines(days[k], month, year, now);
      MonthLinesPrefix(entries, k, month, year, now);
      lines := lines + block;
    }
    assert entries[..days.Length] == entries;
  }

  /** The text `formatScheduleForDiscord` returns for a schedule whose entries are
      `days` before the call. */
  function ViewText(title: string, month: nat, year: nat, days: seq<DailyEvents>,
                    period: string, now: Date): string
    requires month < 12 && ValidDate(now)
  {
    if period == "today" then TodayText(title, month, days, now.day)
    else if period == "week" then Join([TitleLine(title)] + WeekLines(days, month, now, 7), "\n")
    else Join([TitleLine(title)] + MonthLines(SortedDays(days), month, year, now), "\n")
  }

  /** `formatScheduleForDiscord(schedule, period)`: `title`, `month` and `year` are the
      schedule's `threadTitle`, `month` and `year`, `days` its entries. */
  method FormatScheduleForDiscord(title: string, month: nat, year: nat, days: array<DailyEvents>,
                                  period: string, now: Date) returns (text: string)
    requires month < 12 && ValidDate(now)
    modifies days
    ensures text == ViewText(title, month, year, old(days[..]), period, now)
    ensures period == "today" || period == "week" ==> days[..] == old(days[..])
    ensures period != "today" && period != "week" ==> days[..] == SortedDays(old(days[..]))
  {
    var lines: seq<string>;
    if period == "today" {
      var day := FindDay(days[..], now.day);
      if day.None? {
        return NoEventsToday;
      }
      var e := day.value;
      lines := [TitleLine(title)];
      lines := lines + [TodayHeading(e, month)];
      lines := lines + [Event1Line(e)];
      lines := lines + [Event2Line(e)];
      assert lines == TodayLines(title, month, e);
    } else if period == "week" {
      lines := WeekView(title, month, days[..], now);
    } else {
      SortByDay(days);
      lines := MonthView(title, month, year, days, now);
    }
    text := Join(lines, "\n");
  }

  /** The month view lists every entry exactly once, ordered by day, three lines each
      after the title: the sort loses and invents no entry. */
  lemma MonthViewOrdered(days: seq<DailyEvents>, month: nat, year: nat, now: Date)
    requires month < 12
    ensures SortedByDay(SortedDays(days)) && multiset(SortedDays(days)) == multiset(days)
    ensures |MonthLines(SortedDays(days), month, year, now)| == 3 * |days|
  {
    SortedDaysIsSorted(days);
    SortedDaysPermutes(days);
  }
}
