/** The records of `src/scraper.ts`: one day of the monthly table and the
    resolved monthly schedule. */
module ScheduleTypes {

  datatype Option<T> = None | Some(value: T)

  /** `DailyEvents`: a day number and the two optional slot labels. The day is
      whatever the table's date cell held (0..99 in practice; nothing checks 1..31). */
  datatype DailyEvents = DailyEvents(day: nat, event1: Option<string>, event2: Option<string>)

  /** `MonthlySchedule` */
  datatype MonthlySchedule = MonthlySchedule(
    serverLabel: string,
    month: nat,            // 0..11
    year: nat,
    days: seq<DailyEvents>,
    threadTitle: string,
    threadUrl: string)

  /** A candidate thread found on the forum index: its title and resolved link. */
  datatype ThreadRef = ThreadRef(title: string, href: string)

  /** `days.find(d => d.day === n)`: the first entry for day `n`, if any. */
  function FindDay(days: seq<DailyEvents>, n: nat): (r: Option<DailyEvents>)
    ensures r.None? <==> forall k :: 0 <= k < |days| ==> days[k].day != n
    ensures r.Some? ==> exists k :: 0 <= k < |days| && days[k] == r.value && r.value.day == n
                                    && forall j :: 0 <= j < k ==> days[j].day != n
  {
    if |days| == 0 then None
    else if days[0].day == n then Some(days[0])
    else
      var r := FindDay(days[1..], n);
      assert forall k :: 1 <= k < |days| ==> days[k] == days[1..][k - 1];
      r
  }
}
