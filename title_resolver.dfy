/** `extractMonthYearFromTitle` of `src/scraper.ts`: the month is the first key of
    the Portuguese month dictionary, in declaration order, that occurs in the
    lower-cased, diacritic-stripped title; the year is the first `20dd` in the
    title as written. */
module TitleResolver {
  import opened Text
  import opened ScheduleTypes

  /** The combining diacritical marks U+0300..U+036F that the source strips after NFD. */
  predicate IsCombiningMark(c: char) {
    '\U{0300}' <= c <= '\U{036F}'
  }

  /** The base letter NFD leaves of a lower-case Latin-1 letter once its combining mark is
      removed; every other character is its own base. */
  function BaseLetter(c: char): (r: char)
    ensures !IsCombiningMark(c) ==> !IsCombiningMark(r)
  {
    if '\U{00E0}' <= c <= '\U{00E5}' then 'a'
    else if c == '\U{00E7}' then 'c'
    else if '\U{00E8}' <= c <= '\U{00EB}' then 'e'
    else if '\U{00EC}' <= c <= '\U{00EF}' then 'i'
    else if c == '\U{00F1}' then 'n'
    else if '\U{00F2}' <= c <= '\U{00F6}' then 'o'
    else if '\U{00F9}' <= c <= '\U{00FC}' then 'u'
    else if c == '\U{00FD}' || c == '\U{00FF}' then 'y'
    else c
  }

  /** A character that NFD would decompose: what folding never leaves behind. */
  predicate HasDiacritic(c: char) {
    BaseLetter(c) != c
  }

  /** `title.toLowerCase().normalize('NFD').replace(/[̀-ͯ]/g, '')` */
  function Fold(title: string): (r: string)
    ensures |r| <= |title|
    ensures forall i :: 0 <= i < |r| ==> !IsCombiningMark(r[i]) && !HasDiacritic(r[i])
  {
    if |title| == 0 then ""
    else
      var c := LowerChar(title[0]);
      var rest := Fold(title[1..]);
      if IsCombiningMark(c) then rest else [BaseLetter(c)] + rest
  }

  /** `ptMonthToIndex`, in declaration order. */
  const MonthKeys: seq<(string, nat)> := [
    ("janeiro", 0), ("fevereiro", 1), ("março", 2), ("marco", 2), ("abril", 3),
    ("maio", 4), ("junho", 5), ("julho", 6), ("agosto", 7), ("setembro", 8),
    ("outubro", 9), ("novembro", 10), ("dezembro", 11)
  ]

  /** Key `k` is the first key of `keys` that `norm` contains. */
  predicate FirstKeyAt(norm: string, keys: seq<(string, nat)>, k: int) {
    0 <= k < |keys| && Contains(norm, keys[k].0)
    && forall j :: 0 <= j < k ==> !Contains(norm, keys[j].0)
  }

  /** `Object.keys(ptMonthToIndex).find(m => normalized.includes(m))`, then the key's value. */
  function FindMonth(norm: string, keys: seq<(string, nat)>): (r: Option<nat>)
    ensures r.None? <==> forall k :: 0 <= k < |keys| ==> !Contains(norm, keys[k].0)
    ensures r.Some? ==> exists k :: FirstKeyAt(norm, keys, k) && r.value == keys[k].1
  {
    if |keys| == 0 then None
    else if Contains(norm, keys[0].0) then
      assert FirstKeyAt(norm, keys, 0);
      Some(keys[0].1)
    else
      var r := FindMonth(norm, keys[1..]);
      assert forall k :: 1 <= k < |keys| ==> keys[k] == keys[1..][k - 1];
      if r.Some? then
        var k :| FirstKeyAt(norm, keys[1..], k) && r.value == keys[1..][k].1;
        assert FirstKeyAt(norm, keys, k + 1);
        r
      else
        r
  }

  /** `/20\d{2}/` matches at position `p`. */
  predicate YearAt(s: string, p: int) {
    0 <= p && p + 4 <= |s| && s[p] == '2' && s[p + 1] == '0' && IsDigit(s[p + 2]) && IsDigit(s[p + 3])
  }

  /** `parseInt` of the four matched characters. */
  function YearValue(s: string, p: int): (y: nat)
    requires YearAt(s, p)
    ensures 2000 <= y <= 2099
  {
    2000 + 10 * DigitValue(s[p + 2]) + DigitValue(s[p + 3])
  }

  /** The first match of `/20\d{2}/` at or after position `from`. */
  function FindYear(s: string, from: nat): (r: Option<nat>)
    requires from <= |s|
    ensures r.None? <==> forall p :: from <= p ==> !YearAt(s, p)
    ensures r.Some? ==> exists p :: from <= p && YearAt(s, p) && r.value == YearValue(s, p)
                                    && forall q :: from <= q < p ==> !YearAt(s, q)
    decreases |s| - from
  {
    if from + 4 > |s| then None
    else if YearAt(s, from) then Some(YearValue(s, from))
    else FindYear(s, from + 1)
  }

  datatype MonthYear = MonthYear(monthIndex: Option<nat>, year: Option<nat>)

  function ExtractMonthYearFromTitle(title: string): (r: MonthYear)
    ensures r.monthIndex.Some? ==> r.monthIndex.value < 12
    ensures r.year.Some? ==> 2000 <= r.year.value <= 2099
  {
    assert forall k :: 0 <= k < |MonthKeys| ==> MonthKeys[k].1 < 12;
    MonthYear(FindMonth(Fold(title), MonthKeys), FindYear(title, 0))
  }

  /** The month is the value of the first key, in declaration order, that the folded
      title contains, and there is none exactly when no key occurs. */
  lemma MonthIsFirstContainedKey(title: string)
    ensures ExtractMonthYearFromTitle(title).monthIndex.None?
            <==> forall k :: 0 <= k < |MonthKeys| ==> !Contains(Fold(title), MonthKeys[k].0)
    ensures ExtractMonthYearFromTitle(title).monthIndex.Some? ==>
              exists k :: FirstKeyAt(Fold(title), MonthKeys, k)
                          && ExtractMonthYearFromTitle(title).monthIndex.value == MonthKeys[k].1
  {
  }

  /** The year is the value of the first `20dd` of the raw title (not the folded one). */
  lemma YearIsFirstMatch(title: string)
    ensures ExtractMonthYearFromTitle(title).year.None? <==> forall p :: !YearAt(title, p)
    ensures ExtractMonthYearFromTitle(title).year.Some? ==>
              exists p :: YearAt(title, p) && (forall q :: 0 <= q < p ==> !YearAt(title, q))
                          && ExtractMonthYearFromTitle(title).year.value == DecimalValue(title[p..p + 4])
  {
    var r := ExtractMonthYearFromTitle(title);
    if r.year.Some? {
      var p :| 0 <= p && YearAt(title, p) && r.year.value == YearValue(title, p)
               && forall q :: 0 <= q < p ==> !YearAt(title, q);
      YearValueIsParseInt(title, p);
    }
  }

  /** The matched year is what `parseInt(yearMatch[0], 10)` reads from the four characters. */
  lemma YearValueIsParseInt(s: string, p: int)
    requires YearAt(s, p)
    ensures forall i :: p <= i < p + 4 ==> IsDigit(s[i])
    ensures YearValue(s, p) == DecimalValue(s[p..p + 4])
  {
    var w := s[p..p + 4];
    assert w[..3][..2][..1][..0] == [];
    assert w[..3][..2][..1] == [w[0]];
    assert w[..3][..2][1] == w[1] == '0';
    assert DecimalValue(w[..3][..2][..1]) == 2;
    assert DecimalValue(w[..3][..2]) == 20;
    assert DecimalValue(w[..3]) == 200 + DigitValue(w[2]);
  }

  /** Folding turns every `ç` into `c`, so the dictionary key `março` can never match:
      March is always found through the later key `marco`. */
  lemma CedillaKeyNeverMatches(title: string)
    ensures !Contains(Fold(title), MonthKeys[2].0)
  {
    var norm := Fold(title);
    var key := MonthKeys[2].0;
    assert |key| == 5 && HasDiacritic(key[3]);
    // Every five-character window of the folded title has an undecorated fourth letter.
    forall i | 0 <= i && i + |key| <= |norm|
      ensures !OccursAt(norm, key, i)
    {
      assert norm[i..i + |key|][3] == norm[i + 3];
      assert !HasDiacritic(norm[i + 3]);
    }
    ContainsIffOccurs(norm, key);
  }
}
