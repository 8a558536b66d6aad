/** `convertCestToLisbon` of `src/utils.ts`: the first `HH:MM - HH:MM CEST` range of
    an event name is rewritten one hour earlier (Lisbon time), without the zone
    suffix; the rest of the text is kept. The regular expression
    `\b(\d{2}):(\d{2})\s*-\s*(\d{2}):(\d{2})\s*CEST\b` is written out as a scanner:
    each `\s*` is followed by a character that is not white space, so greedy
    skipping is the only way it can match and no backtracking is needed. */
module TimeRange {
  import opened Text
  import opened ScheduleTypes

  /** A match: the text from `start` to `end` is replaced; `h1`, `m1`, `h2`, `m2` are
      the four captured groups. */
  datatype RangeMatch = RangeMatch(start: nat, end: nat, h1: string, m1: string, h2: string, m2: string)

  /** `\d{2}` at position `i`. */
  predicate TwoDigitsAt(s: string, i: nat) {
    i + 2 <= |s| && IsDigit(s[i]) && IsDigit(s[i + 1])
  }

  /** `(\d{2}):(\d{2})` at position `i`. */
  predicate ClockAt(s: string, i: nat) {
    TwoDigitsAt(s, i) && i + 5 <= |s| && s[i + 2] == ':' && TwoDigitsAt(s, i + 3)
  }

  lemma ClockDigits(s: string, i: nat)
    requires ClockAt(s, i)
    ensures AllDigits(s[i..i + 2]) && AllDigits(s[i + 3..i + 5]) && |s[i..i + 2]| == 2 && |s[i + 3..i + 5]| == 2
  {
    assert s[i..i + 2][0] == s[i] && s[i..i + 2][1] == s[i + 1];
    assert s[i + 3..i + 5][0] == s[i + 3] && s[i + 3..i + 5][1] == s[i + 4];
  }

  /** Every captured group is two ASCII digits. */
  predicate WellFormed(m: RangeMatch) {
    |m.h1| == 2 && |m.m1| == 2 && |m.h2| == 2 && |m.m2| == 2
    && AllDigits(m.h1) && AllDigits(m.m1) && AllDigits(m.h2) && AllDigits(m.m2)
  }

  /** The match of the pattern that starts at `p`, if there is one. */
  function MatchAt(s: string, p: nat): (r: Option<RangeMatch>)
    ensures r.Some? ==> r.value.start == p && p + 15 <= r.value.end <= |s| && WellFormed(r.value)
  {
    if !(p <= |s| && (p == 0 || !IsWordChar(s[p - 1])) && ClockAt(s, p)) then None
    else
      var a := SkipSpaces(s, p + 5);
      if !(a < |s| && s[a] == '-') then None
      else
        var b := SkipSpaces(s, a + 1);
        if !ClockAt(s, b) then None
        else
          var c := SkipSpaces(s, b + 5);
          if !(c + 4 <= |s| && s[c..c + 4] == "CEST" && (c + 4 == |s| || !IsWordChar(s[c + 4]))) then None
          else
            ClockDigits(s, p);
            ClockDigits(s, b);
            Some(RangeMatch(p, c + 4, s[p..p + 2], s[p + 3..p + 5], s[b..b + 2], s[b + 3..b + 5]))
  }

  /** A match is delimited as `\b` demands, begins with the first clock, whose hour
      and minutes are its first two groups, and ends with the zone `CEST`. */
  lemma MatchAtShape(s: string, p: nat)
    requires MatchAt(s, p).Some?
    ensures var m := MatchAt(s, p).value;
            (p == 0 || !IsWordChar(s[p - 1]))
            && AllDigits(s[p..p + 2]) && m.h1 == s[p..p + 2] && m.m1 == s[p + 3..p + 5]
            && s[m.end - 4..m.end] == "CEST" && (m.end == |s| || !IsWordChar(s[m.end]))
  {
    var a := SkipSpaces(s, p + 5);
    var b := SkipSpaces(s, a + 1);
    var c := SkipSpaces(s, b + 5);
    assert MatchAt(s, p).value.end == c + 4;
    ClockDigits(s, p);
  }

  /** The first position in `from..upto` where `hit` holds: the scan the regular
      expression engine makes for the leftmost match. */
  function FirstHit(hit: nat -> bool, from: nat, upto: nat): (r: Option<nat>)
    requires from <= upto
    ensures r.None? <==> forall p :: from <= p <= upto ==> !hit(p)
    ensures r.Some? ==> from <= r.value <= upto && hit(r.value)
                        && (forall p :: from <= p < r.value ==> !hit(p))
    decreases upto - from
  {
    if hit(from) then Some(from)
    else if from >= upto then None
    else FirstHit(hit, from + 1, upto)
  }

  /** The leftmost match at or after `from`. */
  function FirstMatch(s: string, from: nat): (r: Option<RangeMatch>)
    requires from <= |s|
    ensures r.Some? ==> from <= r.value.start && MatchAt(s, r.value.start) == r
  {
    match FirstHit((p: nat) => MatchAt(s, p).Some?, from, |s|)
    case None => None
    case Some(p) => MatchAt(s, p)
  }

  /** `FirstMatch` finds nothing exactly when no position matches, and otherwise no
      position before the one it finds matches. */
  lemma FirstMatchIsLeftmost(s: string, from: nat)
    requires from <= |s|
    ensures FirstMatch(s, from).None? <==> forall p :: from <= p <= |s| ==> MatchAt(s, p).None?
    ensures FirstMatch(s, from).Some? ==>
              forall p :: from <= p < FirstMatch(s, from).value.start ==> MatchAt(s, p).None?
  {
    var hit := (p: nat) => MatchAt(s, p).Some?;
    assert forall p: nat :: hit(p) == MatchAt(s, p).Some?;
    assert FirstMatch(s, from) == match FirstHit(hit, from, |s|) case None => None case Some(p) => MatchAt(s, p);
  }

  /** `(start - 1 + 24) % 24`: one hour earlier on the 24-hour clock. */
  function ShiftHour(h: nat): (r: nat)
    ensures r < 24
  {
    (h - 1 + 24) % 24
  }

  /** Going back an hour and then forward an hour is the identity on valid hours,
      midnight included (00 becomes 23). */
  lemma ShiftHourUndone(h: nat)
    requires h < 24
    ensures (ShiftHour(h) + 1) % 24 == h
    ensures h == 0 ==> ShiftHour(h) == 23
    ensures h > 0 ==> ShiftHour(h) == h - 1
  {
  }

  /** The hour is shifted modulo 24 whatever two digits were captured, so an hour the
      clock cannot show wraps as well: `25` becomes `00` and `24` becomes `23`. */
  lemma OutOfRangeHourWraps(h: nat)
    requires 24 <= h < 100
    ensures ShiftHour(h) == (h - 25) % 24
    ensures h == 25 ==> ShiftHour(h) == 0
  {
  }

  /** `fmt(h, m)`: the hour padded to two digits, a colon, the minutes as captured. */
  function Clock(h: nat, m: string): (r: string)
    requires h < 24
    ensures |r| == 2 + 1 + |m| && r[2] == ':' && r[3..] == m
    ensures AllDigits(r[..2]) && DecimalValue(r[..2]) == h
  {
    var hh := PadTwo(h);
    assert (hh + ":" + m)[..2] == hh;
    hh + ":" + m
  }

  /** The replacement text for one match. */
  function Replacement(m: RangeMatch): (r: string)
    requires WellFormed(m)
    ensures |r| == 13 && r[5..8] == " - "
    ensures r[3..5] == m.m1 && r[11..] == m.m2
    ensures AllDigits(r[..2]) && AllDigits(r[8..10])
    ensures DecimalValue(r[..2]) == ShiftHour(DecimalValue(m.h1))
    ensures DecimalValue(r[8..10]) == ShiftHour(DecimalValue(m.h2))
  {
    var first := Clock(ShiftHour(DecimalValue(m.h1)), m.m1);
    var second := Clock(ShiftHour(DecimalValue(m.h2)), m.m2);
    var r := first + " - " + second;
    assert r[..2] == first[..2] && r[8..10] == second[..2] && r[11..] == second[3..];
    r
  }

  /** `convertCestToLisbon(event)` */
  function ConvertCestToLisbon(event: string): (r: string)
  {
    match FirstMatch(event, 0)
    case None => event
    case Some(m) => event[..m.start] + Replacement(m) + event[m.end..]
  }

  /** An event name without a `HH:MM - HH:MM CEST` range is returned unchanged, and one
      with a range is always changed: the rewritten range is shorter than the matched
      text, which holds at least the two clocks, the dash and the zone. */
  lemma UnchangedIffNoRange(event: string)
    ensures ConvertCestToLisbon(event) == event <==> forall p :: 0 <= p <= |event| ==> MatchAt(event, p).None?
    ensures FirstMatch(event, 0).Some? ==> |ConvertCestToLisbon(event)| < |event|
  {
    var r := ConvertCestToLisbon(event);
    FirstMatchIsLeftmost(event, 0);
    match FirstMatch(event, 0)
    case None =>
    case Some(m) =>
      assert |r| == m.start + 13 + (|event| - m.end);
  }

  /** Only the leftmost range is rewritten: the text before it and the text after it
      are kept verbatim, and the minutes are copied. */
  lemma OnlyFirstRangeRewritten(event: string)
    requires FirstMatch(event, 0).Some?
    ensures var m := FirstMatch(event, 0).value; var r := ConvertCestToLisbon(event);
            r[..m.start] == event[..m.start]
            && r[m.start + 13..] == event[m.end..]
            && r[m.start + 3..m.start + 5] == event[m.start + 3..m.start + 5]
            && AllDigits(r[m.start..m.start + 2])
            && DecimalValue(r[m.start..m.start + 2]) == ShiftHour(DecimalValue(event[m.start..m.start + 2]))
  {
    var m := FirstMatch(event, 0).value;
    var rep := Replacement(m);
    Splice(event[..m.start], rep, event[m.end..]);
    assert rep[..2] == rep[0..2];
  }

  /** The three parts of `pre + mid + post` can be read back by position. */
  lemma Splice(pre: string, mid: string, post: string)
    ensures var r := pre + mid + post;
            r[..|pre|] == pre && r[|pre| + |mid|..] == post
            && forall i, j :: 0 <= i <= j <= |mid| ==> r[|pre| + i..|pre| + j] == mid[i..j]
  {
  }

  /** A name that is one range and nothing else becomes that range's replacement. */
  lemma ConvertWhole(event: string, m: RangeMatch, text: string)
    requires FirstMatch(event, 0) == Some(m) && m.start == 0 && m.end == |event|
    requires WellFormed(m) && Replacement(m) == text
    ensures ConvertCestToLisbon(event) == text
  {
    assert event[..0] == [] && event[|event|..] == [];
  }

  /** Two ASCII digits: a captured `\d{2}` group. */
  predicate TwoDigits(d: string) {
    |d| == 2 && AllDigits(d)
  }

  /** The text `HH:MM - HH:MM CEST` built from four two-digit fields. */
  function RangeText(h1: string, m1: string, h2: string, m2: string): string {
    h1 + ":" + m1 + " - " + h2 + ":" + m2 + " CEST"
  }

  /** A name that is one `HH:MM - HH:MM CEST` range and nothing else, whatever its
      four two-digit fields, becomes `HH:MM - HH:MM` with both hours one earlier
      modulo 24 and both minutes as they were. */
  lemma WholeRangeRewritten(h1: string, m1: string, h2: string, m2: string)
    requires TwoDigits(h1) && TwoDigits(m1) && TwoDigits(h2) && TwoDigits(m2)
    ensures var r := ConvertCestToLisbon(RangeText(h1, m1, h2, m2));
            |r| == 13 && r[2] == ':' && r[5..8] == " - " && r[10] == ':'
            && r[3..5] == m1 && r[11..] == m2
            && AllDigits(r[..2]) && DecimalValue(r[..2]) == ShiftHour(DecimalValue(h1))
            && AllDigits(r[8..10]) && DecimalValue(r[8..10]) == ShiftHour(DecimalValue(h2))
  {
    var s := RangeText(h1, m1, h2, m2);
    var m := RangeMatch(0, 18, h1, m1, h2, m2);
    RangeTextMatch(h1, m1, h2, m2);
    ConvertWhole(s, m, Replacement(m));
    var r := Replacement(m);
    assert r == Clock(ShiftHour(DecimalValue(h1)), m1) + " - " + Clock(ShiftHour(DecimalValue(h2)), m2);
  }

  /** The whole of `RangeText` is the leftmost match, with the four fields as groups. */
  lemma RangeTextMatch(h1: string, m1: string, h2: string, m2: string)
    requires TwoDigits(h1) && TwoDigits(m1) && TwoDigits(h2) && TwoDigits(m2)
    ensures FirstMatch(RangeText(h1, m1, h2, m2), 0) == Some(RangeMatch(0, 18, h1, m1, h2, m2))
  {
    var s := RangeText(h1, m1, h2, m2);
    RangeTextLayout(h1, m1, h2, m2);
    assert SkipSpaces(s, 5) == 6 by { assert IsSpace(s[5]) && !IsSpace(s[6]); }
    assert SkipSpaces(s, 7) == 8 by { assert IsSpace(s[7]) && !IsSpace(s[8]); }
    assert SkipSpaces(s, 13) == 14 by { assert IsSpace(s[13]) && !IsSpace(s[14]); }
    assert MatchAt(s, 0) == Some(RangeMatch(0, 18, h1, m1, h2, m2));
    FirstMatchIsLeftmost(s, 0);
  }

  /** Where the fields, the blanks, the dash and the zone of `RangeText` sit. */
  lemma RangeTextLayout(h1: string, m1: string, h2: string, m2: string)
    requires TwoDigits(h1) && TwoDigits(m1) && TwoDigits(h2) && TwoDigits(m2)
    ensures var s := RangeText(h1, m1, h2, m2);
            |s| == 18 && ClockAt(s, 0) && ClockAt(s, 8)
            && s[0..2] == h1 && s[3..5] == m1 && s[8..10] == h2 && s[11..13] == m2
            && s[5] == ' ' && s[6] == '-' && s[7] == ' ' && s[13] == ' ' && s[14..18] == "CEST"
  {
    var s := RangeText(h1, m1, h2, m2);
    assert s[0] == h1[0] && s[1] == h1[1] && s[3] == m1[0] && s[4] == m1[1];
    assert s[8] == h2[0] && s[9] == h2[1] && s[11] == m2[0] && s[12] == m2[1];
  }

  /** The range at midnight moves back to the previous evening, and the hour after
      midnight to midnight. */
  lemma MidnightRange()
    ensures ConvertCestToLisbon("00:30 - 01:15 CEST") == "23:30 - 00:15"
  {
    var m := RangeMatch(0, 18, "00", "30", "01", "15");
    assert RangeText("00", "30", "01", "15") == "00:30 - 01:15 CEST";
    RangeTextMatch("00", "30", "01", "15");
    MidnightReplacement(m);
    ConvertWhole("00:30 - 01:15 CEST", m, "23:30 - 00:15");
  }

  /** Two digits read as tens and units. */
  lemma TwoDigitValue(d: string)
    requires |d| == 2 && AllDigits(d)
    ensures DecimalValue(d) == 10 * DigitValue(d[0]) + DigitValue(d[1])
  {
    var h := d[..1];
    assert d[..|d| - 1] == h && h[..0] == [] && h[0] == d[0];
    assert DecimalValue(h) == DigitValue(d[0]);
  }

  lemma MidnightReplacement(m: RangeMatch)
    requires m == RangeMatch(0, 18, "00", "30", "01", "15")
    ensures Replacement(m) == "23:30 - 00:15"
  {
    TwoDigitValue(m.h1);
    TwoDigitValue(m.h2);
    assert ShiftHour(DecimalValue(m.h1)) == 23 && ShiftHour(DecimalValue(m.h2)) == 0;
    assert PadTwo(23) == "23" by {
      assert NatToString(23) == NatToString(2) + [DigitChar(3)];
    }
    assert PadTwo(0) == "00";
    assert Clock(23, "30") == "23:30" && Clock(0, "15") == "00:15";
  }
}
