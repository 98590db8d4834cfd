/**
 * The period codec: weekday labels and period tokens of the course listing
 * become two-character time codes (weekday digit, then slot character), the
 * inverse day table turns a digit back into a grid column, and `SortKey`
 * orders codes by day and then slot.
 */
module TimeCodes {
  import opened Optional

  type Weekday = d: int | 1 <= d <= 5 witness 1
  type SlotIndex = s: int | 1 <= s <= 11 witness 1

  /** One meeting slot: weekday 1 (Monday) .. 5 (Friday), period 1 .. 11. */
  datatype TimeCode = TimeCode(day: Weekday, slot: SlotIndex)

  /** The keys of DAY_MAP in the order the dictionary is iterated. */
  const DayLabels: seq<string> := ["日", "一", "二", "三", "四", "五", "六"]

  /** DAY_MAP: Sunday and Saturday carry no weekday digit. */
  const DayMap: map<string, Option<char>> := map[
    "日" := None, "一" := Some('1'), "二" := Some('2'), "三" := Some('3'),
    "四" := Some('4'), "五" := Some('5'), "六" := None]

  /** PERIOD_MAP: "1".."9" stand for themselves, "10" and "11" for 'a' and 'b'. */
  const PeriodMap: map<string, char> := map[
    "1" := '1', "2" := '2', "3" := '3', "4" := '4', "5" := '5', "6" := '6',
    "7" := '7', "8" := '8', "9" := '9', "10" := 'a', "11" := 'b']

  /** DAY_NUM_TO_COL: DAY_MAP inverted over its non-empty entries. */
  const DayNumToCol: map<char, string> := Invert(DayLabels)

  /** The inverting comprehension run over `labels` in order; a later label wins a shared digit. */
  function Invert(labels: seq<string>): map<char, string>
    requires forall i :: 0 <= i < |labels| ==> labels[i] in DayMap
  {
    if labels == [] then map[]
    else
      var last := labels[|labels| - 1];
      var rest := Invert(labels[..|labels| - 1]);
      if DayMap[last].Some? then rest[DayMap[last].value := last] else rest
  }

  /** The grid's column labels, Monday to Friday. */
  const Columns: seq<string> := ["一", "二", "三", "四", "五"]

  predicate IsDigit(ch: char) {
    '0' <= ch <= '9'
  }

  function DigitValue(ch: char): int
    requires IsDigit(ch)
  {
    ch as int - '0' as int
  }

  /** The slot index of a code's second character, as both `sort_key` and the grid writer compute it. */
  function SlotIndexOf(p: char): int {
    if IsDigit(p) then DigitValue(p) else if p == 'a' then 10 else 11
  }

  function DigitChar(d: Weekday): char {
    ('0' as int + d) as char
  }

  function SlotChar(s: SlotIndex): char {
    if s <= 9 then ('0' as int + s) as char else if s == 10 then 'a' else 'b'
  }

  /** The code's text, `f"{dnum}{t}"` in the source. */
  function Text(c: TimeCode): (r: string)
    ensures |r| == 2 && IsDigit(r[0])
  {
    [DigitChar(c.day), SlotChar(c.slot)]
  }

  /** `sort_key` on a code's text: the weekday digit times 100 plus the slot index. */
  function SortKey(code: string): int
    requires |code| >= 2 && IsDigit(code[0])
  {
    DigitValue(code[0]) * 100 + SlotIndexOf(code[1])
  }

  /** The sort key of a code value: its day, then its slot. */
  function Rank(c: TimeCode): int {
    c.day * 100 + c.slot
  }

  /** Encodes one period token of one day dayLabel; unknown tokens and weekend days give None. */
  function Encode(dayLabel: string, token: string): (r: Option<TimeCode>)
    ensures r.Some? <==> dayLabel in DayMap && DayMap[dayLabel].Some? && token in PeriodMap
    ensures r.Some? ==> Text(r.value) == [DayMap[dayLabel].value, PeriodMap[token]]
  {
    if dayLabel in DayMap && DayMap[dayLabel].Some? && token in PeriodMap then
      var dnum, t := DayMap[dayLabel].value, PeriodMap[token];
      var c := TimeCode(DigitValue(dnum), SlotIndexOf(t));
      assert Text(c) == [dnum, t];
      Some(c)
    else
      None
  }

  /** The parts `dnum` and `t` of a weekday label and a known token form a code, and it is the encoded one. */
  lemma EncodeParts(dayLabel: string, token: string)
    requires dayLabel in DayMap && DayMap[dayLabel].Some? && token in PeriodMap
    ensures IsDigit(DayMap[dayLabel].value) && 1 <= DigitValue(DayMap[dayLabel].value) <= 5
    ensures 1 <= SlotIndexOf(PeriodMap[token]) <= 11
    ensures Encode(dayLabel, token) == Some(TimeCode(DigitValue(DayMap[dayLabel].value), SlotIndexOf(PeriodMap[token])))
  {
  }

  lemma SlotCharRoundTrip(s: SlotIndex)
    ensures SlotIndexOf(SlotChar(s)) == s
  {
  }

  lemma DigitCharRoundTrip(d: Weekday)
    ensures IsDigit(DigitChar(d)) && DigitValue(DigitChar(d)) == d
  {
  }

  /** `sort_key` of a code's text is its day times 100 plus its slot ('a' is 10, 'b' is 11). */
  lemma SortKeyIsRank(c: TimeCode)
    ensures SortKey(Text(c)) == Rank(c)
  {
    SlotCharRoundTrip(c.slot);
    DigitCharRoundTrip(c.day);
  }

  /** The order `sort_key` induces: day first, then slot; and it separates distinct codes. */
  lemma RankOrder(a: TimeCode, b: TimeCode)
    ensures Rank(a) < Rank(b) <==> a.day < b.day || (a.day == b.day && a.slot < b.slot)
    ensures Rank(a) == Rank(b) <==> a == b
  {
  }

  /** Within one day, slots 1..9 come before 'a' (10th), which comes before 'b' (11th). */
  lemma LetteredSlotsLast(d: Weekday, s: SlotIndex)
    requires s <= 9
    ensures Rank(TimeCode(d, s)) < Rank(TimeCode(d, 10)) < Rank(TimeCode(d, 11))
  {
    RankOrder(TimeCode(d, s), TimeCode(d, 10));
    RankOrder(TimeCode(d, 10), TimeCode(d, 11));
  }

  /** The worked examples of the sort_key docstring: '23' gives 203, and '1a' gives 110 (not 101). */
  lemma SortKeyExamples()
    ensures SortKey("23") == 203
    ensures SortKey("1a") == 110
  {
  }

  /** A code's text determines the code. */
  lemma TextInjective(a: TimeCode, b: TimeCode)
    ensures Text(a) == Text(b) ==> a == b
  {
    if Text(a) == Text(b) {
      SortKeyIsRank(a);
      SortKeyIsRank(b);
      RankOrder(a, b);
    }
  }

  /**
   * Encoding succeeds exactly for a weekday dayLabel and a known period token,
   * and then yields the weekday's number and the token's slot.
   */
  lemma EncodeDomain(dayLabel: string, token: string)
    ensures Encode(dayLabel, token).Some? <==> dayLabel in Columns && token in PeriodMap
    ensures dayLabel == "日" || dayLabel == "六" ==> Encode(dayLabel, token).None?
  {
  }

  /** Every code arises from exactly one weekday dayLabel and the token naming its slot. */
  lemma EncodeHits(c: TimeCode)
    ensures Encode(Columns[c.day - 1], SlotToken(c.slot)) == Some(c)
    ensures forall dayLabel, token :: Encode(dayLabel, token) == Some(c) ==> dayLabel == Columns[c.day - 1] && token == SlotToken(c.slot)
  {
    SlotCharRoundTrip(c.slot);
    forall dayLabel, token | Encode(dayLabel, token) == Some(c)
      ensures dayLabel == Columns[c.day - 1] && token == SlotToken(c.slot)
    {
      assert Text(c) == [DayMap[dayLabel].value, PeriodMap[token]];
      DayLabelOfDigit(dayLabel, c.day);
      TokenOfSlotChar(token, c.slot);
    }
  }

  /** Only one DAY_MAP label carries a given weekday's digit. */
  lemma DayLabelOfDigit(dayLabel: string, d: Weekday)
    requires dayLabel in DayMap && DayMap[dayLabel] == Some(DigitChar(d))
    ensures dayLabel == Columns[d - 1]
  {
    assert dayLabel in {"日", "一", "二", "三", "四", "五", "六"};
  }

  /** Only one PERIOD_MAP token maps to a given slot character. */
  lemma TokenOfSlotChar(token: string, s: SlotIndex)
    requires token in PeriodMap && PeriodMap[token] == SlotChar(s)
    ensures token == SlotToken(s)
  {
    assert token in {"1", "2", "3", "4", "5", "6", "7", "8", "9", "10", "11"};
  }

  /** The PERIOD_MAP key naming a slot: its number in decimal. */
  function SlotToken(s: SlotIndex): (t: string)
    ensures t in PeriodMap && PeriodMap[t] == SlotChar(s)
  {
    if s <= 9 then [('0' as int + s) as char] else if s == 10 then "10" else "11"
  }

  /** Weekday labels round-trip through DAY_MAP and DAY_NUM_TO_COL; weekend labels have no column. */
  lemma DayRoundTrip(dayLabel: string)
    ensures dayLabel in DayMap && DayMap[dayLabel].Some? ==>
              DayMap[dayLabel].value in DayNumToCol && DayNumToCol[DayMap[dayLabel].value] == dayLabel
    ensures dayLabel in DayNumToCol.Values <==> dayLabel in Columns
  {
    DayNumToColTable();
  }

  /** The inverted table written out: digit '1'..'5' to the weekday's label. */
  lemma DayNumToColTable()
    ensures DayNumToCol == map['1' := "一", '2' := "二", '3' := "三", '4' := "四", '5' := "五"]
  {
    assert DayLabels[..0] == [];
    assert Invert(DayLabels[..1]) == map[];
    assert Invert(DayLabels[..2]) == map['1' := "一"] by { assert DayLabels[..2][..1] == DayLabels[..1]; }
    assert Invert(DayLabels[..3]) == map['1' := "一", '2' := "二"] by { assert DayLabels[..3][..2] == DayLabels[..2]; }
    assert Invert(DayLabels[..4]) == map['1' := "一", '2' := "二", '3' := "三"] by { assert DayLabels[..4][..3] == DayLabels[..3]; }
    assert Invert(DayLabels[..5]) == map['1' := "一", '2' := "二", '3' := "三", '4' := "四"] by { assert DayLabels[..5][..4] == DayLabels[..4]; }
    assert Invert(DayLabels[..6]) == map['1' := "一", '2' := "二", '3' := "三", '4' := "四", '5' := "五"] by { assert DayLabels[..6][..5] == DayLabels[..5]; }
    assert DayLabels[..7][..6] == DayLabels[..6];
    assert DayLabels[..7] == DayLabels;
  }

  /** The digits DAY_NUM_TO_COL accepts are exactly the texts' first characters, and they give the code's column. */
  lemma DayNumToColOfCode(c: TimeCode)
    ensures Text(c)[0] in DayNumToCol && DayNumToCol[Text(c)[0]] == Columns[c.day - 1]
  {
    var dayLabel := Columns[c.day - 1];
    assert DayMap[dayLabel] == Some(DigitChar(c.day));
    DayRoundTrip(dayLabel);
  }
}
