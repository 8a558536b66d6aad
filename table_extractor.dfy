/** `parseMonthlyTable` of `src/scraper.ts`. The parsed page is abstracted as its
    tables in document order, each given by its text content and the text
    content of its `td` cells in document order. */
module TableExtractor {
  import opened Text
  import opened ScheduleTypes

  datatype Table = Table(text: string, cells: seq<string>)

  /** `/evento\s*1|evento\s*2/` matches at position `p`. */
  predicate SlotLabelAt(t: string, p: int) {
    0 <= p && p + 6 <= |t| && t[p..p + 6] == "evento"
    && var q := SkipSpaces(t, p + 6); q < |t| && (t[q] == '1' || t[q] == '2')
  }

  /** The table is considered at all: its lower-cased text mentions `evento 1` or `evento 2`. */
  predicate Qualifies(table: Table) {
    var t := Lower(table.text);
    exists p | 0 <= p < |t| :: SlotLabelAt(t, p)
  }

  /** `/\b(\d{1,2})\b/` matches at position `p`: a digit that starts a word and is
      followed by at most one more digit before the word ends. */
  predicate DayTokenAt(s: string, p: int) {
    0 <= p < |s| && IsDigit(s[p]) && (p == 0 || !IsWordChar(s[p - 1]))
    && if p + 1 < |s| && IsDigit(s[p + 1]) then p + 2 == |s| || !IsWordChar(s[p + 2])
       else p + 1 == |s| || !IsWordChar(s[p + 1])
  }

  /** The captured digits of a match at `p`. */
  function DayTokenText(s: string, p: int): (t: string)
    requires DayTokenAt(s, p)
    ensures 1 <= |t| <= 2 && forall i :: 0 <= i < |t| ==> IsDigit(t[i])
  {
    if p + 1 < |s| && IsDigit(s[p + 1]) then s[p..p + 2] else s[p..p + 1]
  }

  /** The first match at or after `from`, read with `parseInt`. */
  function FirstDayToken(s: string, from: nat): (r: Option<nat>)
    requires from <= |s|
    ensures r.Some? ==> r.value < 100
    decreases |s| - from
  {
    if from == |s| then None
    else if DayTokenAt(s, from) then
      var t := DayTokenText(s, from);
      TwoDigitsBelowHundred(t);
      Some(DecimalValue(t))
    else FirstDayToken(s, from + 1)
  }

  /** `FirstDayToken` finds the leftmost match: there is none exactly when no position
      matches, and otherwise its value is the number at the first matching position. */
  lemma {:induction false} FirstDayTokenIsLeftmost(s: string, from: nat)
    requires from <= |s|
    ensures FirstDayToken(s, from).None? <==> forall p :: from <= p < |s| ==> !DayTokenAt(s, p)
    ensures FirstDayToken(s, from).Some? ==>
              exists p :: from <= p < |s| && DayTokenAt(s, p)
                          && FirstDayToken(s, from).value == DecimalValue(DayTokenText(s, p))
                          && forall q :: from <= q < p ==> !DayTokenAt(s, q)
    decreases |s| - from
  {
    if from < |s| && !DayTokenAt(s, from) {
      FirstDayTokenIsLeftmost(s, from + 1);
      var r := FirstDayToken(s, from + 1);
      if r.Some? {
        var p :| from + 1 <= p < |s| && DayTokenAt(s, p) && r.value == DecimalValue(DayTokenText(s, p))
                 && forall q :: from + 1 <= q < p ==> !DayTokenAt(s, q);
        assert forall q :: from <= q < p ==> !DayTokenAt(s, q);
      }
    }
  }

  /** One or two decimal digits are worth less than 100. */
  lemma TwoDigitsBelowHundred(t: string)
    requires 1 <= |t| <= 2 && forall i :: 0 <= i < |t| ==> IsDigit(t[i])
    ensures DecimalValue(t) < 100
  {
    if |t| == 2 {
      assert DecimalValue(t[..1]) < 10 by { assert t[..1][..0] == []; }
    } else {
      assert t[..0] == [];
    }
  }

  /** The header-row heuristic: the date cell reads `data`, or the first slot cell mentions `evento 1`. */
  predicate IsHeaderRow(dayText: string, event1Text: string) {
    Lower(dayText) == "data" || Contains(Lower(event1Text), "evento 1")
  }

  /** A trimmed slot cell: set only when non-empty and not the placeholder `-`, then verbatim. */
  function SlotValue(text: string): (r: Option<string>)
    ensures r.Some? <==> text != "" && text != "-"
    ensures r.Some? ==> r.value == text
  {
    if text != "" && text != "-" then Some(text) else None
  }

  /** The entry one triple of cells yields, or nothing when it is dropped. */
  function RowOf(dayCell: string, event1Cell: string, event2Cell: string): (r: Option<DailyEvents>)
    ensures r.None? <==> IsHeaderRow(Trim(dayCell), Trim(event1Cell)) || FirstDayToken(Trim(dayCell), 0).None?
    ensures r.Some? ==> r.value.day < 100
    ensures r.Some? ==> Some(r.value.day) == FirstDayToken(Trim(dayCell), 0)
    ensures r.Some? ==> r.value.event1 == SlotValue(Trim(event1Cell)) && r.value.event2 == SlotValue(Trim(event2Cell))
  {
    var dayText, event1Text, event2Text := Trim(dayCell), Trim(event1Cell), Trim(event2Cell);
    if IsHeaderRow(dayText, event1Text) then None
    else
      var token := FirstDayToken(dayText, 0);
      if token.None? then None
      else Some(DailyEvents(token.value, SlotValue(event1Text), SlotValue(event2Text)))
  }

  /** An optional value as a list of zero or one elements. */
  function Listed<T>(o: Option<T>): (r: seq<T>)
    ensures |r| <= 1
    ensures o.Some? ==> r == [o.value]
    ensures o.None? ==> r == []
  {
    if o.Some? then [o.value] else []
  }

  /** Cells read as consecutive triples through `row`, a trailing group of one or two
      cells ignored. The walk does not depend on what a row is. */
  function ReadTriples<T>(cells: seq<string>, row: (string, string, string) -> Option<T>): (rows: seq<T>)
    ensures 3 * |rows| <= |cells|
    decreases |cells|
  {
    if |cells| < 3 then []
    else Listed(row(cells[0], cells[1], cells[2])) + ReadTriples(cells[3..], row)
  }

  /** Reading triples is compositional: a prefix made of whole triples contributes its
      own rows, in order, ahead of the rest. */
  lemma {:induction false} ReadTriplesAppend<T>(c1: seq<string>, c2: seq<string>, k: nat,
                                                row: (string, string, string) -> Option<T>)
    requires |c1| == 3 * k
    ensures ReadTriples(c1 + c2, row) == ReadTriples(c1, row) + ReadTriples(c2, row)
    decreases k
  {
    if k > 0 {
      var c := c1 + c2;
      assert c[0] == c1[0] && c[1] == c1[1] && c[2] == c1[2];
      assert c[3..] == c1[3..] + c2;
      ReadTriplesAppend(c1[3..], c2, k - 1, row);
    } else {
      assert c1 + c2 == c2;
    }
  }

  /** Reading one more whole triple appends that triple's row. */
  lemma ReadTriplesStep<T>(cells: seq<string>, k: nat, row: (string, string, string) -> Option<T>)
    requires 3 * k + 3 <= |cells|
    ensures ReadTriples(cells[..3 * k + 3], row)
            == ReadTriples(cells[..3 * k], row) + Listed(row(cells[3 * k], cells[3 * k + 1], cells[3 * k + 2]))
  {
    var triple := cells[3 * k..3 * k + 3];
    assert cells[..3 * k + 3] == cells[..3 * k] + triple;
    ReadTriplesAppend(cells[..3 * k], triple, k, row);
    assert triple[3..] == [];
  }

  /** Once fewer than three cells are left after `k` triples, the rest contributes nothing. */
  lemma TrailingCells<T>(cells: seq<string>, k: nat, row: (string, string, string) -> Option<T>)
    requires 3 * k <= |cells| < 3 * k + 3
    ensures ReadTriples(cells, row) == ReadTriples(cells[..3 * k], row)
  {
    var front, back := cells[..3 * k], cells[3 * k..];
    assert cells == front + back;
    ReadTriplesAppend(front, back, k, row);
  }

  /** A trailing group of one or two cells contributes nothing. */
  lemma TrailingCellsIgnored<T>(cells: seq<string>, row: (string, string, string) -> Option<T>)
    ensures ReadTriples(cells, row) == ReadTriples(cells[..|cells| - |cells| % 3], row)
  {
    var q := |cells| / 3;
    assert |cells| - |cells| % 3 == 3 * q;
    TrailingCells(cells, q, row);
  }

  /** The entries of one table. */
  function TableRows(cells: seq<string>): (rows: seq<DailyEvents>)
    ensures 3 * |rows| <= |cells|
    ensures forall k :: 0 <= k < |rows| ==> rows[k].day < 100
  {
    DaysBelowHundred(cells);
    ReadTriples(cells, RowOf)
  }

  lemma {:induction false} DaysBelowHundred(cells: seq<string>)
    ensures forall k :: 0 <= k < |ReadTriples(cells, RowOf)| ==> ReadTriples(cells, RowOf)[k].day < 100
    decreases |cells|
  {
    if |cells| >= 3 {
      var here := Listed(RowOf(cells[0], cells[1], cells[2]));
      DaysBelowHundred(cells[3..]);
      assert ReadTriples(cells, RowOf) == here + ReadTriples(cells[3..], RowOf);
    }
  }

  /** A table that qualifies and yields at least one entry. */
  predicate Yields(table: Table) {
    Qualifies(table) && TableRows(table.cells) != []
  }

  /** The whole extraction: the entries of the first table, in document order, that
      qualifies and yields at least one entry; no entries when no table does. */
  function ExtractDays(tables: seq<Table>): (days: seq<DailyEvents>)
    ensures days == [] <==> forall i :: 0 <= i < |tables| ==> !Yields(tables[i])
    ensures days != [] ==> exists i :: 0 <= i < |tables| && Yields(tables[i])
                                       && days == TableRows(tables[i].cells)
                                       && forall j :: 0 <= j < i ==> !Yields(tables[j])
  {
    if |tables| == 0 then []
    else if Yields(tables[0]) then TableRows(tables[0].cells)
    else
      var days := ExtractDays(tables[1..]);
      ExtractTail(tables, days);
      days
  }

  /** The step of `ExtractDays` past a first table that yields nothing. */
  lemma ExtractTail(tables: seq<Table>, days: seq<DailyEvents>)
    requires |tables| > 0 && !Yields(tables[0])
    requires days == [] <==> forall i :: 0 <= i < |tables| - 1 ==> !Yields(tables[1..][i])
    requires days != [] ==> exists i :: 0 <= i < |tables| - 1 && Yields(tables[1..][i])
                                        && days == TableRows(tables[1..][i].cells)
                                        && forall j :: 0 <= j < i ==> !Yields(tables[1..][j])
    ensures days == [] <==> forall i :: 0 <= i < |tables| ==> !Yields(tables[i])
    ensures days != [] ==> exists i :: 0 <= i < |tables| && Yields(tables[i])
                                       && days == TableRows(tables[i].cells)
                                       && forall j :: 0 <= j < i ==> !Yields(tables[j])
  {
    if days != [] {
      var i :| 0 <= i < |tables| - 1 && Yields(tables[1..][i]) && days == TableRows(tables[1..][i].cells)
               && forall j :: 0 <= j < i ==> !Yields(tables[1..][j]);
      assert tables[i + 1] == tables[1..][i];
      forall j | 0 <= j < i + 1 ensures !Yields(tables[j]) {
        if j > 0 { assert tables[j] == tables[1..][j - 1]; }
      }
    } else {
      forall i | 0 <= i < |tables| ensures !Yields(tables[i]) {
        if i > 0 { assert tables[i] == tables[1..][i - 1]; }
      }
    }
  }

  /** One pass of the inner loop: the triple read as a row, or skipped. */
  method ReadRow(dayCell: string, event1Cell: string, event2Cell: string) returns (row: Option<DailyEvents>)
    ensures row == RowOf(dayCell, event1Cell, event2Cell)
  {
    var dayText := Trim(dayCell);
    var event1Text := Trim(event1Cell);
    var event2Text := Trim(event2Cell);
    if IsHeaderRow(dayText, event1Text) {
      return None;
    }
    var dayMatch := FirstDayToken(dayText, 0);
    if dayMatch.None? {
      return None;
    }
    row := Some(DailyEvents(dayMatch.value, SlotValue(event1Text), SlotValue(event2Text)));
  }

  /** The body of the source's outer loop for one qualifying table: its cells taken
      three at a time, skipping header rows and rows without a day number. */
  method RowsOfTable(tds: seq<string>) returns (days: seq<DailyEvents>)
    ensures days == TableRows(tds)
  {
    days := [];
    var i := 0;
    ghost var rowsRead := 0;
    while i < |tds|
      invariant i == 3 * rowsRead <= |tds|
      invariant days == ReadTriples(tds[..i], RowOf)
    {
      if i + 2 >= |tds| {
        break;
      }
      ReadTriplesStep(tds, rowsRead, RowOf);
      var row := ReadRow(tds[i], tds[i + 1], tds[i + 2]);
      if row.Some? {
        days := days + [row.value];
      }
      i := i + 3;
      rowsRead := rowsRead + 1;
    }
    TrailingCells(tds, rowsRead, RowOf);
  }

  /** `parseMonthlyTable`: the tables in document order; a table that does not qualify
      is skipped, and the first one whose rows are not empty ends the search. */
  method ParseMonthlyTable(tables: seq<Table>) returns (days: seq<DailyEvents>)
    ensures days == ExtractDays(tables)
    ensures |days| > 0 ==> exists i :: 0 <= i < |tables| && Qualifies(tables[i]) && |days| <= |tables[i].cells| / 3
    ensures forall k :: 0 <= k < |days| ==> days[k].day < 100
  {
    var t := 0;
    while t < |tables|
      invariant 0 <= t <= |tables|
      invariant ExtractDays(tables) == ExtractDays(tables[t..])
    {
      var table := tables[t];
      assert tables[t..][0] == table && tables[t..][1..] == tables[t + 1..];
      if !Qualifies(table) {
        t := t + 1;
        continue;
      }
      days := RowsOfTable(table.cells);
      if |days| > 0 {
        return;
      }
      t := t + 1;
    }
    days := [];
  }
}
