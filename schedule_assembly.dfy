/** The pure parts of `src/scraper.ts` around the table: the anchor filter of
    `findTigerghostThreads`, the null and `serverLabel` rules of
    `parseThreadToSchedule`, and the month selection of `getSchedule`. Pages,
    anchors and the clock are inputs; URL resolution is a parameter. */
module ScheduleAssembly {
  import opened Text
  import opened ScheduleTypes
  import opened TitleResolver
  import opened TableExtractor

  const DefaultServerLabel: string := "Tigerghost"

  /** `/\[(.*?)\]/` can match from the `[` at `i` to the `]` at `j`: no `]` and no line
      terminator (which `.` does not match) lie between them. */
  predicate PairAt(s: string, i: int, j: int) {
    0 <= i < j < |s| && s[i] == '[' && s[j] == ']'
    && forall k :: i < k < j ==> s[k] != ']' && !IsLineTerminator(s[k])
  }

  /** The closing bracket for the `[` at `i`, scanning from `j`. */
  function FindClose(s: string, i: nat, j: nat): (r: Option<nat>)
    requires i < j <= |s| && s[i] == '['
    requires forall k :: i < k < j ==> s[k] != ']' && !IsLineTerminator(s[k])
    ensures r.Some? ==> PairAt(s, i, r.value)
    ensures r.None? ==> forall e :: !PairAt(s, i, e)
    decreases |s| - j
  {
    if j == |s| then None
    else if s[j] == ']' then Some(j)
    else if IsLineTerminator(s[j]) then None
    else FindClose(s, i, j + 1)
  }

  /** The captured group of the leftmost match starting at or after `from`. */
  function FirstBracketContent(s: string, from: nat): (r: Option<string>)
    requires from <= |s|
    ensures r.None? <==> forall i, j :: from <= i ==> !PairAt(s, i, j)
    ensures r.Some? ==> exists i, j :: from <= i && PairAt(s, i, j) && r.value == s[i + 1..j]
                                       && forall i', j' :: from <= i' < i ==> !PairAt(s, i', j')
    decreases |s| - from
  {
    if from == |s| then None
    else if s[from] == '[' && from + 1 <= |s| && FindClose(s, from, from + 1).Some? then
      Some(s[from + 1..FindClose(s, from, from + 1).value])
    else
      var r := FirstBracketContent(s, from + 1);
      assert s[from] == '[' ==> forall j :: !PairAt(s, from, j);
      r
  }

  /** `/\[(.*?)\]/.exec(title)?.[1] ?? 'Tigerghost'` */
  function ServerLabel(title: string): (r: string)
    ensures (forall i, j :: !PairAt(title, i, j)) ==> r == DefaultServerLabel
    ensures forall i, j :: PairAt(title, i, j) && (forall i', j' :: 0 <= i' < i ==> !PairAt(title, i', j'))
                           ==> r == title[i + 1..j]
  {
    var c := FirstBracketContent(title, 0);
    if c.Some? then
      assert forall i, j1, j2 :: PairAt(title, i, j1) && PairAt(title, i, j2) ==> j1 == j2 by {
        forall i, j1, j2 | PairAt(title, i, j1) && PairAt(title, i, j2) ensures j1 == j2 {
          assert title[j1] == ']' && title[j2] == ']';
        }
      }
      c.value
    else
      DefaultServerLabel
  }

  /** What every schedule the pipeline builds satisfies. */
  predicate ValidSchedule(s: MonthlySchedule) {
    s.month < 12 && 2000 <= s.year <= 2099 && |s.days| > 0
    && forall k :: 0 <= k < |s.days| ==> s.days[k].day < 100
  }

  /** `parseThreadToSchedule` once the page has been fetched and parsed into `tables`. */
  function ParseThreadToSchedule(title: string, href: string, tables: seq<Table>): (r: Option<MonthlySchedule>)
    ensures r.None? <==> ExtractMonthYearFromTitle(title).monthIndex.None?
                         || ExtractMonthYearFromTitle(title).year.None?
                         || forall i :: 0 <= i < |tables| ==> !Yields(tables[i])
    ensures r.Some? ==> ValidSchedule(r.value)
    ensures r.Some? ==> r.value.threadTitle == title && r.value.threadUrl == href
    ensures r.Some? ==> r.value.serverLabel == ServerLabel(title) && r.value.days == ExtractDays(tables)
    ensures r.Some? ==> MonthYear(Some(r.value.month), Some(r.value.year)) == ExtractMonthYearFromTitle(title)
  {
    var my := ExtractMonthYearFromTitle(title);
    var days := ExtractDays(tables);
    if my.monthIndex.None? || my.year.None? || |days| == 0 then None
    else
      var i :| 0 <= i < |tables| && Yields(tables[i]) && days == TableRows(tables[i].cells);
      Some(MonthlySchedule(ServerLabel(title), my.monthIndex.value, my.year.value, days, title, href))
  }

  /** The (month, year) a period asks for: the following month for `next`, with
      December rolling over to January of the next year; the current month otherwise. */
  function TargetMonth(period: string, month: nat, year: nat): (r: (nat, nat))
    requires month < 12
    ensures r.0 < 12
    ensures period == "next" ==> r == ((month + 1) % 12, year + (month + 1) / 12)
    ensures period != "next" ==> r == (month, year)
  {
    if period == "next" then
      if month == 11 then (0, year + 1) else (month + 1, year)
    else
      (month, year)
  }

  /** The title of a thread resolves to the given month and year. */
  predicate ResolvesTo(title: string, target: (nat, nat)) {
    ExtractMonthYearFromTitle(title) == MonthYear(Some(target.0), Some(target.1))
  }

  /** The `threads.find(...)` of `getSchedule`: the first thread, in list order, whose
      title resolves to the target month. */
  function SelectThread(threads: seq<ThreadRef>, target: (nat, nat)): (r: Option<ThreadRef>)
    ensures r.None? <==> forall k :: 0 <= k < |threads| ==> !ResolvesTo(threads[k].title, target)
    ensures r.Some? ==> exists k :: 0 <= k < |threads| && threads[k] == r.value && ResolvesTo(r.value.title, target)
                                    && forall j :: 0 <= j < k ==> !ResolvesTo(threads[j].title, target)
  {
    if |threads| == 0 then None
    else if ResolvesTo(threads[0].title, target) then
      assert 0 < |threads| && threads[0] == threads[0];
      Some(threads[0])
    else
      var rest := threads[1..];
      var r := SelectThread(rest, target);
      SelectTail(threads, target, r);
      r
  }

  /** The step of `SelectThread` past a first thread that does not match. */
  lemma SelectTail(threads: seq<ThreadRef>, target: (nat, nat), r: Option<ThreadRef>)
    requires |threads| > 0 && !ResolvesTo(threads[0].title, target)
    requires r.None? <==> forall k :: 0 <= k < |threads| - 1 ==> !ResolvesTo(threads[1..][k].title, target)
    requires r.Some? ==> exists k :: 0 <= k < |threads| - 1 && threads[1..][k] == r.value && ResolvesTo(r.value.title, target)
                                     && forall j :: 0 <= j < k ==> !ResolvesTo(threads[1..][j].title, target)
    ensures r.None? <==> forall k :: 0 <= k < |threads| ==> !ResolvesTo(threads[k].title, target)
    ensures r.Some? ==> exists k :: 0 <= k < |threads| && threads[k] == r.value && ResolvesTo(r.value.title, target)
                                    && forall j :: 0 <= j < k ==> !ResolvesTo(threads[j].title, target)
  {
    if r.Some? {
      var k :| 0 <= k < |threads| - 1 && threads[1..][k] == r.value && ResolvesTo(r.value.title, target)
               && forall j :: 0 <= j < k ==> !ResolvesTo(threads[1..][j].title, target);
      assert threads[k + 1] == r.value;
      forall j | 0 <= j < k + 1 ensures !ResolvesTo(threads[j].title, target) {
        if j > 0 { assert threads[j] == threads[1..][j - 1]; }
      }
    } else {
      forall k | 0 <= k < |threads| ensures !ResolvesTo(threads[k].title, target) {
        if k > 0 { assert threads[k] == threads[1..][k - 1]; }
      }
    }
  }

  /** `getSchedule(period)` with the thread list, the clock's month and year and the
      fetched pages as inputs. */
  function GetSchedule(threads: seq<ThreadRef>, period: string, month: nat, year: nat,
                       pageOf: string -> seq<Table>): Option<MonthlySchedule>
    requires month < 12
  {
    match SelectThread(threads, TargetMonth(period, month, year))
    case None => None
    case Some(t) => ParseThreadToSchedule(t.title, t.href, pageOf(t.href))
  }

  /** The schedule `getSchedule` returns is always for the month the period asks for,
      built from the first matching thread; there is none when no thread matches. */
  lemma {:induction false} GetScheduleIsForTarget(threads: seq<ThreadRef>, period: string, month: nat, year: nat,
                                                 pageOf: string -> seq<Table>)
    requires month < 12
    ensures (forall k :: 0 <= k < |threads| ==> !ResolvesTo(threads[k].title, TargetMonth(period, month, year)))
            ==> GetSchedule(threads, period, month, year, pageOf).None?
    ensures GetSchedule(threads, period, month, year, pageOf).Some? ==>
              var s := GetSchedule(threads, period, month, year, pageOf).value;
              ValidSchedule(s) && (s.month, s.year) == TargetMonth(period, month, year)
              && exists k :: 0 <= k < |threads| && ResolvesTo(threads[k].title, TargetMonth(period, month, year))
                             && (forall j :: 0 <= j < k ==> !ResolvesTo(threads[j].title, TargetMonth(period, month, year)))
                             && Some(s) == ParseThreadToSchedule(threads[k].title, threads[k].href, pageOf(threads[k].href))
                             && s.days == ExtractDays(pageOf(threads[k].href)) && s.serverLabel == ServerLabel(threads[k].title)
  {
    var target := TargetMonth(period, month, year);
    var sel := SelectThread(threads, target);
    if sel.Some? {
      var t := sel.value;
      var r := ParseThreadToSchedule(t.title, t.href, pageOf(t.href));
      if r.Some? {
        assert ResolvesTo(t.title, target);
        assert (r.value.month, r.value.year) == target;
        var k :| 0 <= k < |threads| && threads[k] == t && ResolvesTo(t.title, target)
                 && forall j :: 0 <= j < k ==> !ResolvesTo(threads[j].title, target);
        assert Some(r.value) == ParseThreadToSchedule(threads[k].title, threads[k].href, pageOf(threads[k].href));
      }
    }
  }

  /** An anchor of the forum index: its text content and its raw `href`. */
  datatype Anchor = Anchor(text: string, href: string)

  /** `/tigerghost/i.test(a.textContent)`: only ASCII letters fold under `/i`, so
      lower-casing the text and searching for the lower-case word is the same test. */
  predicate IsTigerghostAnchor(a: Anchor) {
    Contains(Lower(a.text), "tigerghost")
  }

  /** The filter and map of `findTigerghostThreads`: matching anchors in document
      order, title trimmed, link resolved against the forum URL by `resolve`. */
  function FindTigerghostThreads(anchors: seq<Anchor>, resolve: string -> string): (r: seq<ThreadRef>)
    ensures |r| <= |anchors|
    ensures forall t :: t in r <==> exists a :: a in anchors && IsTigerghostAnchor(a)
                                                && t == ThreadRef(Trim(a.text), resolve(a.href))
  {
    if |anchors| == 0 then []
    else
      var rest := FindTigerghostThreads(anchors[1..], resolve);
      assert forall a :: a in anchors <==> a == anchors[0] || a in anchors[1..];
      if IsTigerghostAnchor(anchors[0]) then
        [ThreadRef(Trim(anchors[0].text), resolve(anchors[0].href))] + rest
      else
        rest
  }

  /** One anchor yields its thread when it matches and nothing otherwise. */
  lemma FindTigerghostThreadsOne(a: Anchor, resolve: string -> string)
    ensures FindTigerghostThreads([a], resolve)
            == if IsTigerghostAnchor(a) then [ThreadRef(Trim(a.text), resolve(a.href))] else []
  {
    assert [a][1..] == [];
  }

  /** The filter keeps document order and multiplicity: the threads of two runs of anchors
      are the threads of the first run followed by those of the second. With the one-anchor
      case this fixes the list exactly, so the first matching thread `getSchedule` picks is
      the one of the first matching anchor. */
  lemma {:induction false} FindTigerghostThreadsAppend(a: seq<Anchor>, b: seq<Anchor>, resolve: string -> string)
    ensures FindTigerghostThreads(a + b, resolve)
            == FindTigerghostThreads(a, resolve) + FindTigerghostThreads(b, resolve)
    decreases |a|
  {
    if a == [] {
      assert a + b == b;
    } else {
      assert (a + b)[0] == a[0] && (a + b)[1..] == a[1..] + b;
      FindTigerghostThreadsAppend(a[1..], b, resolve);
    }
  }
}
